/**
  The shared counter of pthread_neural_network.c.

  Any number of threads run foo: take counterMutex, load globalCounter, add the input, store the
  sum, format a message that reads the counter again, unlock, and read the counter once more to
  return it.  The main thread creates the threads one by one and joins them in order; it may do so
  again on every click of the Start button.  One Step is one indivisible action of one thread, so a
  list of steps is one interleaving.
*/
module LockedCounter {
  import opened Common

  /** Where a thread stands inside foo. */
  datatype Pc =
    | NotCreated
    | Ready
    | Entered
    | Loaded(value: int)
    | Added(value: int)
    | Stored
    | Reported
    | Unlocked
    | Finished(result: int)
    | Joined(result: int)

  datatype Main = Idle | Creating(next: nat) | Joining(next: nat)

  /** "Thread t updated global state to: value", formatted while the mutex is held. */
  datatype Message = Message(thread: nat, value: int)

  /** base, order and clicks are history: the counter when this click began, the threads that have
      stored in the order in which they stored, and the inputs of the clicks already finished. */
  datatype State = State(counter: int, holder: Option<nat>, main: Main, inputs: seq<int>, pcs: seq<Pc>,
                         results: seq<int>, messages: seq<Message>,
                         base: int, order: seq<nat>, clicks: seq<seq<int>>)

  datatype Step = Click(values: seq<int>) | MainStep | ThreadStep(thread: nat)

  const INITIAL_COUNTER := 2

  const INIT := IdleState(INITIAL_COUNTER, [])

  predicate InCritical(pc: Pc) {
    pc.Entered? || pc.Loaded? || pc.Added? || pc.Stored? || pc.Reported?
  }

  predicate HasStored(pc: Pc) {
    pc.Stored? || pc.Reported? || pc.Unlocked? || pc.Finished? || pc.Joined?
  }

  predicate HasResult(pc: Pc) {
    pc.Finished? || pc.Joined?
  }

  predicate ThreadCanStep(pc: Pc, holder: Option<nat>) {
    InCritical(pc) || pc.Unlocked? || (pc.Ready? && holder.None?)
  }

  predicate MainCanStep(main: Main, pcs: seq<Pc>) {
    match main
    case Idle => false
    case Creating(_) => true
    case Joining(i) => i < |pcs| ==> pcs[i].Finished?
  }

  predicate Enabled(s: State, step: Step) {
    match step
    case Click(_) => s.main.Idle?
    case MainStep => MainCanStep(s.main, s.pcs)
    case ThreadStep(t) => t < |s.pcs| && ThreadCanStep(s.pcs[t], s.holder)
  }

  function Apply(s: State, step: Step): State
    requires |s.pcs| == |s.inputs|
    requires Enabled(s, step)
  {
    match step
    case Click(values) =>
      s.(main := Creating(0), inputs := values, pcs := seq(|values|, _ => NotCreated),
      results := [], messages := [], base := s.counter, order := [])
    case MainStep => ApplyMain(s)
    case ThreadStep(t) => ApplyThread(s, t)
  }

  function ApplyMain(s: State): State
    requires MainCanStep(s.main, s.pcs)
  {
    match s.main
    case Creating(i) =>
      if i < |s.pcs| then s.(pcs := s.pcs[i := Ready], main := Creating(i + 1)) else s.(main := Joining(0))
    case Joining(i) =>
      if i < |s.pcs| then
        var r := s.pcs[i].result;
        s.(pcs := s.pcs[i := Joined(r)], results := s.results + [r], main := Joining(i + 1))
      else
        s.(main := Idle, clicks := s.clicks + [s.inputs])
  }

  function ApplyThread(s: State, t: nat): State
    requires |s.pcs| == |s.inputs|
    requires t < |s.pcs| && ThreadCanStep(s.pcs[t], s.holder)
  {
    match s.pcs[t]
    case Ready => s.(holder := Some(t), pcs := s.pcs[t := Entered])
    case Entered => s.(pcs := s.pcs[t := Loaded(s.counter)])
    case Loaded(v) => s.(pcs := s.pcs[t := Added(v + s.inputs[t])])
    case Added(v) => s.(counter := v, pcs := s.pcs[t := Stored], order := s.order + [t])
    case Stored => s.(messages := s.messages + [Message(t, s.counter)], pcs := s.pcs[t := Reported])
    case Reported => s.(holder := None, pcs := s.pcs[t := Unlocked])
    case Unlocked => s.(pcs := s.pcs[t := Finished(s.counter)])
  }

  // ---------------------------------------------------------------------------------------------
  // The invariant

  /** The inputs of the first k threads in the order, added up. */
  function Total(inputs: seq<int>, order: seq<nat>, k: nat): int
    requires k <= |order|
  {
    if k == 0 then 0 else Total(inputs, order, k - 1) + InputOf(inputs, order[k - 1])
  }

  ghost predicate AmongFirst(order: seq<nat>, k: nat, t: nat) {
    exists i :: 0 <= i < k <= |order| && order[i] == t
  }

  function InputOf(inputs: seq<int>, t: nat): int {
    if t < |inputs| then inputs[t] else 0
  }

  /** What each thread has contributed so far, thread by thread. */
  function Contributions(inputs: seq<int>, pcs: seq<Pc>): (w: seq<int>)
    requires |pcs| == |inputs|
    ensures |w| == |inputs|
  {
    seq(|inputs|, i requires 0 <= i < |inputs| => if HasStored(pcs[i]) then inputs[i] else 0)
  }

  function SumClicks(clicks: seq<seq<int>>): int {
    if clicks == [] then 0 else SumClicks(clicks[..|clicks| - 1]) + Sum(clicks[|clicks| - 1])
  }

  ghost predicate Distinct(threads: seq<nat>) {
    forall i, j :: 0 <= i < j < |threads| ==> threads[i] != threads[j]
  }

  /** How far the main thread is determines which threads exist and which are joined. */
  ghost predicate ShapeInv(s: State) {
    && |s.pcs| == |s.inputs|
    && match s.main
       case Idle => |s.results| == |s.pcs| && forall t :: 0 <= t < |s.pcs| ==> s.pcs[t].Joined?
       case Creating(i) =>
         && i <= |s.pcs| && s.results == []
         && forall t :: 0 <= t < |s.pcs| ==> (s.pcs[t].NotCreated? <==> i <= t) && !s.pcs[t].Joined?
       case Joining(i) =>
         && i <= |s.pcs| && |s.results| == i
         && forall t :: 0 <= t < |s.pcs| ==> !s.pcs[t].NotCreated? && (s.pcs[t].Joined? <==> t < i)
  }

  ghost predicate MutexInv(s: State) {
    && (s.holder.Some? ==> s.holder.value < |s.pcs|)
    && forall t :: 0 <= t < |s.pcs| ==> (InCritical(s.pcs[t]) <==> s.holder == Some(t))
  }

  /** A private copy of the counter is never stale. */
  ghost predicate CopyInv(s: State)
    requires |s.pcs| == |s.inputs|
  {
    forall t :: 0 <= t < |s.pcs| ==>
      && (s.pcs[t].Loaded? ==> s.pcs[t].value == s.counter)
      && (s.pcs[t].Added? ==> s.pcs[t].value == s.counter + s.inputs[t])
  }

  ghost predicate OrderInv(s: State) {
    && Distinct(s.order)
    && (forall i :: 0 <= i < |s.order| ==> s.order[i] < |s.pcs|)
    && (forall t: nat :: t < |s.pcs| ==> (t in s.order <==> HasStored(s.pcs[t])))
  }

  ghost predicate LedgerInv(s: State)
    requires |s.pcs| == |s.inputs|
  {
    && s.counter == s.base + Total(s.inputs, s.order, |s.order|)
    && s.counter == s.base + Sum(Contributions(s.inputs, s.pcs))
    && (s.main.Idle? ==> s.counter == INITIAL_COUNTER + SumClicks(s.clicks))
    && (!s.main.Idle? ==> s.base == INITIAL_COUNTER + SumClicks(s.clicks))
  }

  ghost predicate MessageInv(s: State) {
    && |s.messages| <= |s.order| <= |s.messages| + 1
    && (|s.messages| < |s.order| <==> exists t :: 0 <= t < |s.pcs| && s.pcs[t].Stored?)
    && (forall t :: 0 <= t < |s.pcs| && s.pcs[t].Stored? ==> s.order != [] && s.order[|s.order| - 1] == t)
    && forall i :: 0 <= i < |s.messages| ==> ReportsTotal(s, i)
  }

  /** Message i names the i-th thread to store and the total after its store. */
  ghost predicate ReportsTotal(s: State, i: nat)
    requires i < |s.messages| <= |s.order|
  {
    s.messages[i] == Message(s.order[i], s.base + Total(s.inputs, s.order, i + 1))
  }

  /** r is the start value plus the inputs of the first k threads to store, t among them. */
  ghost predicate SawPrefix(s: State, t: nat, r: int, k: nat) {
    && k <= |s.order|
    && AmongFirst(s.order, k, t)
    && r == s.base + Total(s.inputs, s.order, k)
  }

  ghost predicate ResultInv(s: State) {
    && (forall t: nat :: t < |s.pcs| && HasResult(s.pcs[t]) ==> exists k: nat :: SawPrefix(s, t, s.pcs[t].result, k))
    && |s.results| <= |s.pcs|
    && forall t: nat :: t < |s.results| ==> s.pcs[t].Joined? && s.pcs[t].result == s.results[t]
  }

  ghost predicate Inv(s: State) {
    ShapeInv(s) && MutexInv(s) && CopyInv(s) && OrderInv(s) && LedgerInv(s) && MessageInv(s) && ResultInv(s)
  }

  // ---------------------------------------------------------------------------------------------
  // Every step keeps the invariant

  lemma ClickKeepsThreads(s: State, values: seq<int>)
    requires ShapeInv(s) && MutexInv(s) && s.main.Idle?
    ensures ShapeInv(Apply(s, Click(values))) && MutexInv(Apply(s, Click(values)))
    ensures CopyInv(Apply(s, Click(values))) && OrderInv(Apply(s, Click(values)))
  {
  }

  lemma ClickKeepsLedger(s: State, values: seq<int>)
    requires ShapeInv(s) && LedgerInv(s) && s.main.Idle?
    ensures LedgerInv(Apply(s, Click(values)))
  {
    var s' := Apply(s, Click(values));
    SumZero(Contributions(s'.inputs, s'.pcs));
  }

  lemma ClickKeepsReports(s: State, values: seq<int>)
    requires ShapeInv(s) && s.main.Idle?
    ensures MessageInv(Apply(s, Click(values))) && ResultInv(Apply(s, Click(values)))
  {
    var s' := Apply(s, Click(values));
    assert s'.order == [] && s'.messages == [] && s'.results == [];
  }

  /** A step that moves thread t to pc without storing keeps every contribution. */
  lemma ContributionsUnchanged(inputs: seq<int>, pcs: seq<Pc>, t: nat, pc: Pc)
    requires |pcs| == |inputs| && t < |pcs|
    requires HasStored(pc) == HasStored(pcs[t])
    ensures Contributions(inputs, pcs[t := pc]) == Contributions(inputs, pcs)
  {
  }

  lemma JoiningAllContributes(s: State)
    requires ShapeInv(s) && LedgerInv(s) && s.main == Joining(|s.pcs|)
    ensures s.counter == s.base + Sum(s.inputs)
  {
    assert Contributions(s.inputs, s.pcs) == s.inputs;
  }

  lemma MainKeepsThreads(s: State)
    requires ShapeInv(s) && MutexInv(s) && CopyInv(s) && OrderInv(s) && MainCanStep(s.main, s.pcs)
    ensures ShapeInv(ApplyMain(s)) && MutexInv(ApplyMain(s)) && CopyInv(ApplyMain(s)) && OrderInv(ApplyMain(s))
  {
  }

  lemma MainKeepsLedger(s: State)
    requires ShapeInv(s) && LedgerInv(s) && MainCanStep(s.main, s.pcs)
    ensures LedgerInv(ApplyMain(s))
  {
    var s' := ApplyMain(s);
    if s.main.Joining? && s.main.next == |s.pcs| {
      JoiningAllContributes(s);
      assert s'.clicks[..|s'.clicks| - 1] == s.clicks;
    } else if s.main.next < |s.pcs| {
      ContributionsUnchanged(s.inputs, s.pcs, s.main.next, s'.pcs[s.main.next]);
    }
  }

  lemma MainKeepsMessages(s: State)
    requires ShapeInv(s) && MessageInv(s) && MainCanStep(s.main, s.pcs)
    ensures MessageInv(ApplyMain(s))
  {
    var s' := ApplyMain(s);
    assert forall t :: 0 <= t < |s.pcs| ==> (s'.pcs[t].Stored? <==> s.pcs[t].Stored?);
    assert forall i :: 0 <= i < |s.messages| ==> ReportsTotal(s, i) ==> ReportsTotal(s', i);
  }

  lemma MainKeepsResults(s: State)
    requires ShapeInv(s) && ResultInv(s) && MainCanStep(s.main, s.pcs)
    ensures ResultInv(ApplyMain(s))
  {
    var s' := ApplyMain(s);
    forall t: nat | t < |s'.pcs| && HasResult(s'.pcs[t])
      ensures exists k: nat :: SawPrefix(s', t, s'.pcs[t].result, k)
    {
      var k: nat :| SawPrefix(s, t, s.pcs[t].result, k);
      assert SawPrefix(s', t, s'.pcs[t].result, k);
    }
  }

  lemma ThreadKeepsThreads(s: State, t: nat)
    requires ShapeInv(s) && MutexInv(s) && CopyInv(s) && t < |s.pcs| && ThreadCanStep(s.pcs[t], s.holder)
    ensures ShapeInv(ApplyThread(s, t)) && MutexInv(ApplyThread(s, t)) && CopyInv(ApplyThread(s, t))
  {
  }

  lemma ThreadKeepsOrder(s: State, t: nat)
    requires |s.pcs| == |s.inputs| && OrderInv(s) && t < |s.pcs| && ThreadCanStep(s.pcs[t], s.holder)
    ensures OrderInv(ApplyThread(s, t))
  {
    var s' := ApplyThread(s, t);
    if s.pcs[t].Added? {
      assert t !in s.order;
      assert forall u: nat :: u in s'.order <==> u in s.order || u == t;
    }
  }

  /** Later stores do not change the totals reached before. */
  lemma {:induction false} TotalOfPrefix(inputs: seq<int>, order: seq<nat>, order': seq<nat>, k: nat)
    requires order <= order' && k <= |order|
    ensures Total(inputs, order', k) == Total(inputs, order, k)
  {
    if k > 0 {
      TotalOfPrefix(inputs, order, order', k - 1);
    }
  }

  lemma StoreAddsInput(inputs: seq<int>, pcs: seq<Pc>, order: seq<nat>, t: nat)
    requires |pcs| == |inputs| && t < |pcs| && pcs[t].Added?
    ensures Total(inputs, order + [t], |order| + 1) == Total(inputs, order, |order|) + inputs[t]
    ensures Sum(Contributions(inputs, pcs[t := Stored])) == Sum(Contributions(inputs, pcs)) + inputs[t]
  {
    TotalOfPrefix(inputs, order, order + [t], |order|);
    var w := Contributions(inputs, pcs);
    assert Contributions(inputs, pcs[t := Stored]) == w[t := inputs[t]];
    SumUpdate(w, t, inputs[t]);
  }

  lemma StoreKeepsLedger(s: State, t: nat)
    requires ShapeInv(s) && CopyInv(s) && LedgerInv(s)
    requires t < |s.pcs| && s.pcs[t].Added?
    ensures LedgerInv(ApplyThread(s, t))
  {
    StoreAddsInput(s.inputs, s.pcs, s.order, t);
  }

  lemma ThreadKeepsLedger(s: State, t: nat)
    requires ShapeInv(s) && CopyInv(s) && LedgerInv(s)
    requires t < |s.pcs| && ThreadCanStep(s.pcs[t], s.holder)
    ensures LedgerInv(ApplyThread(s, t))
  {
    if s.pcs[t].Added? {
      StoreKeepsLedger(s, t);
    } else {
      var s' := ApplyThread(s, t);
      ContributionsUnchanged(s.inputs, s.pcs, t, s'.pcs[t]);
      assert s'.pcs == s.pcs[t := s'.pcs[t]] && s'.order == s.order;
    }
  }

  lemma ThreadKeepsMessages(s: State, t: nat)
    requires ShapeInv(s) && MutexInv(s) && LedgerInv(s) && MessageInv(s)
    requires t < |s.pcs| && ThreadCanStep(s.pcs[t], s.holder)
    ensures MessageInv(ApplyThread(s, t))
  {
    if s.pcs[t].Stored? {
      ReportKeepsMessages(s, t);
    } else if s.pcs[t].Added? {
      StoreKeepsMessages(s, t);
    } else {
      OtherKeepsMessages(s, t);
    }
  }

  lemma ReportKeepsMessages(s: State, t: nat)
    requires ShapeInv(s) && MutexInv(s) && LedgerInv(s) && MessageInv(s)
    requires t < |s.pcs| && s.pcs[t].Stored?
    ensures MessageInv(ApplyThread(s, t))
  {
    var s' := ApplyThread(s, t);
    var n := |s.messages|;
    assert n + 1 == |s.order| && s.order[n] == t;
    assert s'.messages == s.messages + [Message(t, s.counter)] && s'.order == s.order;
    assert forall u :: 0 <= u < |s.pcs| && u != t ==> !InCritical(s.pcs[u]);
    assert forall u :: 0 <= u < |s.pcs| ==> !s'.pcs[u].Stored?;
    forall i | 0 <= i < |s'.messages|
      ensures ReportsTotal(s', i)
    {
      if i < n { assert ReportsTotal(s, i); }
    }
  }

  lemma StoreKeepsMessages(s: State, t: nat)
    requires ShapeInv(s) && MutexInv(s) && MessageInv(s)
    requires t < |s.pcs| && s.pcs[t].Added?
    ensures MessageInv(ApplyThread(s, t))
  {
    var s' := ApplyThread(s, t);
    assert s'.pcs[t].Stored?;
    assert forall u :: 0 <= u < |s.pcs| && u != t ==> s'.pcs[u] == s.pcs[u] && !InCritical(s.pcs[u]);
    forall i | 0 <= i < |s'.messages|
      ensures ReportsTotal(s', i)
    {
      assert ReportsTotal(s, i);
      TotalOfPrefix(s.inputs, s.order, s'.order, i + 1);
    }
  }

  lemma OtherKeepsMessages(s: State, t: nat)
    requires ShapeInv(s) && MessageInv(s)
    requires t < |s.pcs| && ThreadCanStep(s.pcs[t], s.holder) && !s.pcs[t].Stored? && !s.pcs[t].Added?
    ensures MessageInv(ApplyThread(s, t))
  {
    var s' := ApplyThread(s, t);
    assert s'.order == s.order && s'.messages == s.messages;
    assert forall u :: 0 <= u < |s.pcs| ==> (s'.pcs[u].Stored? <==> s.pcs[u].Stored?);
    assert forall i :: 0 <= i < |s.messages| ==> ReportsTotal(s, i) ==> ReportsTotal(s', i);
  }

  lemma PrefixSurvives(s: State, s': State, t: nat, r: int, k: nat)
    requires SawPrefix(s, t, r, k)
    requires s'.inputs == s.inputs && s'.base == s.base && s.order <= s'.order
    ensures SawPrefix(s', t, r, k)
  {
    TotalOfPrefix(s.inputs, s.order, s'.order, k);
    assert forall i :: 0 <= i < k ==> s'.order[i] == s.order[i];
  }

  /** The read outside the lock sees every store made so far, the reader's own included. */
  lemma FinishedSawPrefix(s: State, t: nat)
    requires ShapeInv(s) && OrderInv(s) && LedgerInv(s)
    requires t < |s.pcs| && s.pcs[t].Unlocked?
    ensures SawPrefix(ApplyThread(s, t), t, s.counter, |s.order|)
  {
    assert t in s.order;
  }

  lemma ThreadKeepsShownResults(s: State, t: nat)
    requires ShapeInv(s) && ResultInv(s)
    requires t < |s.pcs| && ThreadCanStep(s.pcs[t], s.holder)
    ensures ApplyThread(s, t).results == s.results && |ApplyThread(s, t).pcs| == |s.pcs|
    ensures forall u: nat :: u < |s.results| ==>
      ApplyThread(s, t).pcs[u].Joined? && ApplyThread(s, t).pcs[u].result == s.results[u]
  {
  }

  lemma ThreadKeepsResults(s: State, t: nat)
    requires ShapeInv(s) && OrderInv(s) && LedgerInv(s) && ResultInv(s)
    requires t < |s.pcs| && ThreadCanStep(s.pcs[t], s.holder)
    ensures ResultInv(ApplyThread(s, t))
  {
    var s' := ApplyThread(s, t);
    assert s'.results == s.results && s'.inputs == s.inputs && s'.base == s.base && s.order <= s'.order;
    assert s'.pcs == s.pcs[t := s'.pcs[t]] && !s.pcs[t].Joined?;
    ThreadKeepsShownResults(s, t);
    forall u: nat | u < |s'.pcs| && HasResult(s'.pcs[u])
      ensures exists k: nat :: SawPrefix(s', u, s'.pcs[u].result, k)
    {
      if u == t {
        FinishedSawPrefix(s, t);
      } else {
        var k: nat :| SawPrefix(s, u, s.pcs[u].result, k);
        PrefixSurvives(s, s', u, s.pcs[u].result, k);
      }
    }
  }

  lemma StepKeepsInv(s: State, step: Step)
    requires Inv(s) && Enabled(s, step)
    ensures Inv(Apply(s, step))
  {
    match step
    case Click(values) =>
      ClickKeepsThreads(s, values);
      ClickKeepsLedger(s, values);
      ClickKeepsReports(s, values);
    case MainStep =>
      MainKeepsThreads(s);
      MainKeepsLedger(s);
      MainKeepsMessages(s);
      MainKeepsResults(s);
    case ThreadStep(t) =>
      ThreadKeepsThreads(s, t);
      ThreadKeepsOrder(s, t);
      ThreadKeepsLedger(s, t);
      ThreadKeepsMessages(s, t);
      ThreadKeepsResults(s, t);
  }

  // ---------------------------------------------------------------------------------------------
  // Every run

  ghost predicate Possible(s: State, step: Step) {
    |s.pcs| == |s.inputs| && Enabled(s, step)
  }

  /** The steps can be taken one after the other from the initial state on. */
  ghost predicate ValidRun(steps: seq<Step>)
    decreases |steps|, 0
  {
    var n := |steps| - 1;
    steps == [] || (ValidRun(steps[..n]) && Possible(After(steps[..n]), steps[n]))
  }

  ghost function After(steps: seq<Step>): State
    requires ValidRun(steps)
    decreases |steps|, 1
  {
    var n := |steps| - 1;
    if steps == [] then INIT else Apply(After(steps[..n]), steps[n])
  }

  /** The state between clicks. */
  function IdleState(counter: int, clicks: seq<seq<int>>): State {
    State(counter, None, Idle, [], [], [], [], counter, [], clicks)
  }

  lemma IdleThreads(counter: int, clicks: seq<seq<int>>)
    ensures var s := IdleState(counter, clicks);
            ShapeInv(s) && MutexInv(s) && CopyInv(s) && OrderInv(s) && ResultInv(s)
  {
  }

  lemma IdleLedger(counter: int, clicks: seq<seq<int>>)
    requires counter == INITIAL_COUNTER + SumClicks(clicks)
    ensures var s := IdleState(counter, clicks); ShapeInv(s) && LedgerInv(s)
  {
    var s := IdleState(counter, clicks);
    assert Contributions(s.inputs, s.pcs) == [];
  }

  lemma IdleInv(counter: int, clicks: seq<seq<int>>)
    requires counter == INITIAL_COUNTER + SumClicks(clicks)
    ensures Inv(IdleState(counter, clicks))
  {
    IdleThreads(counter, clicks);
    IdleLedger(counter, clicks);
    assert MessageInv(IdleState(counter, clicks));
  }

  /** A state that satisfies the invariant. */
  type GoodState = s: State | Inv(s) ghost witness InitIsGood()

  ghost function InitIsGood(): (s: State)
    ensures Inv(s)
  {
    IdleInv(INITIAL_COUNTER, []);
    INIT
  }

  /** Every interleaving of any number of threads and clicks leads to a good state. */
  lemma {:induction false} Reachable(steps: seq<Step>)
    requires ValidRun(steps)
    ensures Inv(After(steps))
    decreases |steps|
  {
    if steps == [] {
      IdleInv(INITIAL_COUNTER, []);
    } else {
      var n := |steps| - 1;
      Reachable(steps[..n]);
      StepKeepsInv(After(steps[..n]), steps[n]);
    }
  }

  /** In every interleaving at most one thread is between lock and unlock. */
  lemma MutualExclusion(steps: seq<Step>, t: nat, u: nat)
    requires ValidRun(steps)
    requires var pcs := After(steps).pcs;
             t < |pcs| && u < |pcs| && InCritical(pcs[t]) && InCritical(pcs[u])
    ensures t == u
  {
    Reachable(steps);
  }

  /** In every interleaving the counter is the start value plus the inputs of exactly the threads
      that have stored, and between clicks it is the first value plus the inputs of all clicks. */
  lemma CounterIsConserved(steps: seq<Step>)
    requires ValidRun(steps)
    ensures Conserved(After(steps))
  {
    Reachable(steps);
    GoodIsConserved(After(steps));
  }

  ghost predicate Conserved(s: State) {
    && |s.pcs| == |s.inputs|
    && s.counter == s.base + Sum(Contributions(s.inputs, s.pcs))
    && (s.main.Idle? ==> s.counter == INITIAL_COUNTER + SumClicks(s.clicks))
  }

  lemma GoodIsConserved(s: State)
    requires ShapeInv(s) && LedgerInv(s)
    ensures Conserved(s)
  {
  }

  /** Once every thread is joined the counter is the start value plus all inputs. */
  lemma AfterAllJoins(s: State)
    requires ShapeInv(s) && LedgerInv(s) && s.main.Idle?
    ensures s.counter == s.base + Sum(s.inputs)
  {
    assert Contributions(s.inputs, s.pcs) == s.inputs;
  }

  lemma {:induction false} TotalsIncrease(inputs: seq<int>, order: seq<nat>, j: nat, k: nat)
    requires forall i :: 0 <= i < |order| ==> order[i] < |inputs|
    requires Positive(inputs) && j <= k <= |order|
    ensures Total(inputs, order, j) <= Total(inputs, order, k)
    ensures j < k ==> Total(inputs, order, j) < Total(inputs, order, k)
  {
    if j < k {
      TotalsIncrease(inputs, order, j, k - 1);
    }
  }

  ghost predicate Positive(inputs: seq<int>) {
    forall i :: 0 <= i < |inputs| ==> inputs[i] > 0
  }

  lemma MessagesIncrease(s: State, i: nat, j: nat)
    requires |s.pcs| == |s.inputs| && OrderInv(s) && LedgerInv(s) && MessageInv(s)
    requires Positive(s.inputs) && i < j < |s.messages|
    ensures s.messages[i].thread != s.messages[j].thread
    ensures s.base < s.messages[i].value < s.messages[j].value <= s.counter
  {
    assert ReportsTotal(s, i) && ReportsTotal(s, j);
    TotalsIncrease(s.inputs, s.order, 0, i + 1);
    TotalsIncrease(s.inputs, s.order, i + 1, j + 1);
    TotalsIncrease(s.inputs, s.order, j + 1, |s.order|);
  }

  /** In every interleaving the values that successive updates report under the lock strictly
      increase if the inputs are positive. */
  lemma UpdatesStrictlyIncrease(steps: seq<Step>, i: nat, j: nat)
    requires ValidRun(steps)
    requires var s := After(steps); Positive(s.inputs) && i < j < |s.messages|
    ensures var s := After(steps);
            && s.messages[i].thread != s.messages[j].thread
            && s.base < s.messages[i].value < s.messages[j].value <= s.counter
  {
    Reachable(steps);
    MessagesIncrease(After(steps), i, j);
  }

  /** A prefix of the updates that contains t is worth at least t's input, and no more than all. */
  lemma PrefixBounds(inputs: seq<int>, order: seq<nat>, t: nat, k: nat)
    requires Positive(inputs) && AmongFirst(order, k, t)
    requires forall i :: 0 <= i < |order| ==> order[i] < |inputs|
    ensures inputs[t] <= Total(inputs, order, k) <= Total(inputs, order, |order|)
  {
    var i: nat :| i < k && order[i] == t;
    TotalsIncrease(inputs, order, 0, i);
    TotalsIncrease(inputs, order, i + 1, k);
    TotalsIncrease(inputs, order, k, |order|);
  }

  lemma ResultIsRunningTotal(s: State, t: nat)
    requires |s.pcs| == |s.inputs| && OrderInv(s) && LedgerInv(s) && ResultInv(s)
    requires t < |s.pcs| && HasResult(s.pcs[t])
    ensures exists k: nat :: SawPrefix(s, t, s.pcs[t].result, k)
    ensures Positive(s.inputs) ==> s.base + s.inputs[t] <= s.pcs[t].result <= s.counter
  {
    var k: nat :| SawPrefix(s, t, s.pcs[t].result, k);
    if Positive(s.inputs) {
      PrefixBounds(s.inputs, s.order, t, k);
    }
  }

  /** Although read after the unlock, in every interleaving a result is the start value plus the
      inputs of the first k threads to store, the reader among them; with positive inputs it never
      exceeds the counter. */
  lemma ResultsAreRunningTotals(steps: seq<Step>, t: nat)
    requires ValidRun(steps)
    requires var s := After(steps); t < |s.pcs| && |s.pcs| == |s.inputs| && HasResult(s.pcs[t])
    ensures var s := After(steps);
            && (exists k: nat :: SawPrefix(s, t, s.pcs[t].result, k))
            && (Positive(s.inputs) ==> s.base + s.inputs[t] <= s.pcs[t].result <= s.counter)
  {
    Reachable(steps);
    ResultIsRunningTotal(After(steps), t);
  }

  lemma {:induction false} DistinctCover(order: seq<nat>, n: nat)
    requires Distinct(order)
    requires forall t: nat :: t in order <==> t < n
    ensures |order| == n
  {
    CardinalityOfDistinct(order);
    CardinalityBelow(n);
    assert Elements(order) == Below(n);
  }

  function Elements(order: seq<nat>): set<nat> {
    set t | t in order
  }

  function Below(n: nat): set<nat> {
    if n == 0 then {} else Below(n - 1) + {n - 1}
  }

  lemma {:induction false} CardinalityOfDistinct(order: seq<nat>)
    requires Distinct(order)
    ensures |Elements(order)| == |order|
  {
    if order != [] {
      var init, last := order[..|order| - 1], order[|order| - 1];
      CardinalityOfDistinct(init);
      assert Elements(order) == Elements(init) + {last} by {
        assert order == init + [last];
      }
      assert last !in init;
    }
  }

  lemma {:induction false} CardinalityBelow(n: nat)
    ensures |Below(n)| == n
    ensures forall t: nat :: t in Below(n) <==> t < n
  {
    if n > 0 {
      CardinalityBelow(n - 1);
    }
  }

  /** The only prefix of the order that contains its last thread is the whole order. */
  lemma OnlyWholeOrderHasLast(order: seq<nat>, k: nat)
    requires Distinct(order) && order != [] && AmongFirst(order, k, order[|order| - 1])
    ensures k == |order|
  {
  }

  lemma AllHaveStored(s: State)
    requires ShapeInv(s) && OrderInv(s) && s.main.Idle?
    ensures |s.order| == |s.inputs|
  {
    assert forall t: nat :: t < |s.pcs| ==> t in s.order;
    assert forall t: nat :: t in s.order ==> t < |s.pcs|;
    DistinctCover(s.order, |s.pcs|);
  }

  /** The last thread to add returns the final total. */
  lemma LastAdderReturnsTotal(s: State)
    requires ShapeInv(s) && OrderInv(s) && LedgerInv(s) && ResultInv(s)
    requires s.main.Idle? && |s.inputs| >= 1
    ensures |s.order| == |s.inputs|
    ensures s.results[s.order[|s.order| - 1]] == s.counter == s.base + Sum(s.inputs)
  {
    AllHaveStored(s);
    AfterAllJoins(s);
    var last := s.order[|s.order| - 1];
    var k: nat :| SawPrefix(s, last, s.pcs[last].result, k);
    OnlyWholeOrderHasLast(s.order, k);
  }

  // ---------------------------------------------------------------------------------------------
  // Every scheduler finishes the click

  function StepsLeft(pc: Pc): nat {
    match pc
    case NotCreated => 9
    case Ready => 8
    case Entered => 7
    case Loaded(_) => 6
    case Added(_) => 5
    case Stored => 4
    case Reported => 3
    case Unlocked => 2
    case Finished(_) => 1
    case Joined(_) => 0
  }

  function StepsLeftEach(pcs: seq<Pc>): seq<int> {
    seq(|pcs|, i requires 0 <= i < |pcs| => StepsLeft(pcs[i]))
  }

  function MainLeft(main: Main, n: nat): int {
    match main
    case Idle => 0
    case Creating(i) => 2 * n + 2 - i
    case Joining(i) => n + 1 - i
  }

  function Remaining(s: State): int {
    Sum(StepsLeftEach(s.pcs)) + MainLeft(s.main, |s.pcs|)
  }

  lemma RemainingNonNegative(s: State)
    requires ShapeInv(s)
    ensures Remaining(s) >= 0
  {
    SumNonNegative(StepsLeftEach(s.pcs));
  }

  lemma AdvanceOne(pcs: seq<Pc>, t: nat, pc: Pc)
    requires t < |pcs|
    ensures Sum(StepsLeftEach(pcs[t := pc])) == Sum(StepsLeftEach(pcs)) - StepsLeft(pcs[t]) + StepsLeft(pc)
  {
    var left := StepsLeftEach(pcs);
    assert StepsLeftEach(pcs[t := pc]) == left[t := StepsLeft(pc)];
    SumUpdate(left, t, StepsLeft(pc));
  }

  lemma ThreadDecreasesRemaining(s: State, t: nat)
    requires ShapeInv(s) && t < |s.pcs| && ThreadCanStep(s.pcs[t], s.holder)
    ensures Remaining(ApplyThread(s, t)) < Remaining(s)
  {
    AdvanceOne(s.pcs, t, ApplyThread(s, t).pcs[t]);
  }

  lemma MainDecreasesRemaining(s: State)
    requires ShapeInv(s) && MainCanStep(s.main, s.pcs)
    ensures Remaining(ApplyMain(s)) < Remaining(s)
  {
    var i := s.main.next;
    if i < |s.pcs| {
      AdvanceOne(s.pcs, i, ApplyMain(s).pcs[i]);
    }
  }

  lemma StepKeepsShape(s: State, step: Step)
    requires ShapeInv(s) && CanProceed(s, step)
    ensures ShapeInv(Apply(s, step))
  {
  }

  /** Whatever the scheduler picks, the click comes closer to its end. */
  lemma StepDecreasesRemaining(s: State, step: Step)
    requires ShapeInv(s) && CanProceed(s, step)
    ensures 0 <= Remaining(Apply(s, step)) < Remaining(s)
  {
    if step.MainStep? {
      MainDecreasesRemaining(s);
    } else {
      ThreadDecreasesRemaining(s, step.thread);
    }
    StepKeepsShape(s, step);
    RemainingNonNegative(Apply(s, step));
  }

  ghost predicate CanProceed(s: State, step: Step) {
    !step.Click? && Enabled(s, step)
  }

  /** Until the click is over some thread can move: there is no deadlock. */
  lemma NoDeadlock(s: State)
    requires ShapeInv(s) && MutexInv(s) && !s.main.Idle?
    ensures exists step :: CanProceed(s, step)
  {
    if s.holder.Some? {
      assert CanProceed(s, ThreadStep(s.holder.value));
    } else if MainCanStep(s.main, s.pcs) {
      assert CanProceed(s, MainStep);
    } else {
      var i := s.main.next;
      assert !InCritical(s.pcs[i]);
      assert CanProceed(s, ThreadStep(i));
    }
  }

  // ---------------------------------------------------------------------------------------------
  // The program itself

  /** Who may move: -1 is the main thread. */
  predicate CanMove(who: int, main: Main, pcs: seq<Pc>, holder: Option<nat>)
    requires -1 <= who < |pcs|
  {
    if who == -1 then MainCanStep(main, pcs) else ThreadCanStep(pcs[who], holder)
  }

  lemma SomeoneCanMove(s: GoodState)
    requires !s.main.Idle?
    ensures exists who :: -1 <= who < |s.pcs| && CanMove(who, s.main, s.pcs, s.holder)
  {
    NoDeadlock(s);
    var step :| CanProceed(s, step);
    var who := if step.MainStep? then -1 else step.thread;
    assert CanMove(who, s.main, s.pcs, s.holder);
  }

  lemma MoveFrame(s: State, who: int)
    requires |s.pcs| == |s.inputs| && !s.main.Idle?
    requires -1 <= who < |s.pcs| && CanMove(who, s.main, s.pcs, s.holder)
    ensures var s' := if who == -1 then ApplyMain(s) else ApplyThread(s, who);
            && s'.inputs == s.inputs && s'.base == s.base
            && s'.clicks == if s'.main.Idle? then s.clicks + [s.inputs] else s.clicks
  {
  }

  /** The step that the scheduler's choice stands for, with the state that it leads to. */
  ghost function Moved(s: GoodState, who: int): (s': GoodState)
    requires !s.main.Idle? && -1 <= who < |s.pcs| && CanMove(who, s.main, s.pcs, s.holder)
    ensures 0 <= Remaining(s') < Remaining(s)
    ensures s' == if who == -1 then ApplyMain(s) else ApplyThread(s, who)
    ensures s'.inputs == s.inputs && s'.base == s.base
    ensures s'.clicks == if s'.main.Idle? then s.clicks + [s.inputs] else s.clicks
  {
    var step := if who == -1 then MainStep else ThreadStep(who);
    assert CanProceed(s, step);
    StepKeepsInv(s, step);
    StepDecreasesRemaining(s, step);
    MoveFrame(s, who);
    if who == -1 then ApplyMain(s) else ApplyThread(s, who)
  }

  /** The state right after a valid click. */
  ghost function Clicked(counter: int, clicks: seq<seq<int>>, inputs: seq<int>): (s: GoodState)
    requires counter == INITIAL_COUNTER + SumClicks(clicks)
    ensures s == Apply(IdleState(counter, clicks), Click(inputs)) && 0 <= Remaining(s)
  {
    IdleInv(counter, clicks);
    StepKeepsInv(IdleState(counter, clicks), Click(inputs));
    RemainingNonNegative(Apply(IdleState(counter, clicks), Click(inputs)));
    Apply(IdleState(counter, clicks), Click(inputs))
  }

  /** What the click has computed once every thread is joined. */
  ghost predicate Outcome(inputs: seq<int>, base: int, counter: int, results: seq<int>, order: seq<nat>) {
    && counter == base + Sum(inputs)
    && |results| == |inputs| == |order|
    && Distinct(order) && (forall i :: 0 <= i < |order| ==> order[i] < |inputs|)
    && (forall t: nat :: t < |inputs| ==> RunningTotal(inputs, base, results[t], t, order))
    && (Positive(inputs) ==> forall t :: 0 <= t < |inputs| ==> base + inputs[t] <= results[t] <= counter)
    && (|inputs| >= 1 ==> results[order[|inputs| - 1]] == counter)
  }

  /** r is the start value plus the inputs of the first k threads in the order, t among them. */
  ghost predicate RunningTotal(inputs: seq<int>, base: int, r: int, t: nat, order: seq<nat>) {
    exists k: nat :: AmongFirst(order, k, t) && r == base + Total(inputs, order, k)
  }

  lemma IdleIsUnlocked(s: State)
    requires ShapeInv(s) && MutexInv(s) && s.main.Idle?
    ensures s.holder.None?
  {
    assert s.holder.Some? ==> !InCritical(s.pcs[s.holder.value]);
  }

  /** Every schedule of a click ends in an Outcome. */
  lemma FinishedClick(s: State)
    requires ShapeInv(s) && OrderInv(s) && LedgerInv(s) && ResultInv(s) && s.main.Idle?
    ensures Outcome(s.inputs, s.base, s.counter, s.results, s.order)
  {
    AfterAllJoins(s);
    AllHaveStored(s);
    if |s.inputs| >= 1 {
      LastAdderReturnsTotal(s);
    }
    forall t: nat | t < |s.inputs|
      ensures RunningTotal(s.inputs, s.base, s.results[t], t, s.order)
      ensures Positive(s.inputs) ==> s.base + s.inputs[t] <= s.results[t] <= s.counter
    {
      FinishedResult(s, t);
    }
  }

  lemma FinishedResult(s: State, t: nat)
    requires ShapeInv(s) && OrderInv(s) && LedgerInv(s) && ResultInv(s)
    requires s.main.Idle? && t < |s.inputs|
    ensures RunningTotal(s.inputs, s.base, s.results[t], t, s.order)
    ensures Positive(s.inputs) ==> s.base + s.inputs[t] <= s.results[t] <= s.counter
  {
    ResultIsRunningTotal(s, t);
    var k: nat :| SawPrefix(s, t, s.pcs[t].result, k);
  }

  /** In every run, whenever no click is under way, the last one has ended in its Outcome. */
  lemma EveryClickHasItsOutcome(steps: seq<Step>)
    requires ValidRun(steps) && After(steps).main.Idle?
    ensures var s := After(steps); Outcome(s.inputs, s.base, s.counter, s.results, s.order)
  {
    Reachable(steps);
    FinishedClick(After(steps));
  }

  lemma EndOfClick(s: State)
    requires ShapeInv(s) && MutexInv(s) && LedgerInv(s) && s.main.Idle?
    ensures s.holder.None? && s.counter == INITIAL_COUNTER + SumClicks(s.clicks)
  {
    IdleIsUnlocked(s);
  }

  /** The process-wide data of the program. */
  class App {
    var globalCounter: int
    var counterMutex: Option<nat>
    ghost var clicks: seq<seq<int>>

    /** Between clicks the mutex is free and the counter has kept every input ever submitted. */
    ghost predicate Valid()
      reads this
    {
      counterMutex.None? && globalCounter == INITIAL_COUNTER + SumClicks(clicks)
    }

    constructor ()
      ensures Valid() && clicks == [] && globalCounter == 2
    {
      globalCounter := INITIAL_COUNTER;
      counterMutex := None;
      clicks := [];
    }

    /** validate_inputs: the thread count is 1 to 10 and every input is positive. */
    static method ValidateInputs(numThreadsEntry: int, inputs: seq<int>) returns (valid: bool)
      ensures valid <==> 1 <= numThreadsEntry <= 10 && Positive(inputs)
    {
      if numThreadsEntry < 1 || numThreadsEntry > 10 {
        return false;
      }
      for i := 0 to |inputs|
        invariant forall j :: 0 <= j < i ==> inputs[j] > 0
      {
        if inputs[i] <= 0 {
          return false;
        }
      }
      return true;
    }

    /** The program's data are those of the machine state. */
    ghost predicate Coupled(inputs: seq<int>, main: Main, threads: array<Pc>, results: seq<int>, s: State)
      reads this, threads
    {
      && s.inputs == inputs && s.main == main && s.results == results
      && s.counter == globalCounter && s.holder == counterMutex && s.pcs == threads[..]
    }

    /** The next action of foo in thread t. */
    method ThreadAction(t: nat, inputs: seq<int>, threads: array<Pc>, ghost s: State)
      requires threads.Length == |inputs| && t < threads.Length && ThreadCanStep(threads[t], counterMutex)
      requires s.counter == globalCounter && s.holder == counterMutex && s.inputs == inputs && s.pcs == threads[..]
      modifies this`globalCounter, this`counterMutex, threads
      ensures var s' := ApplyThread(s, t);
              s'.counter == globalCounter && s'.holder == counterMutex && s'.pcs == threads[..]
              && s'.main == s.main && s'.results == s.results
    {
      match threads[t]
      case Ready =>
        counterMutex := Some(t);
        threads[t] := Entered;
      case Entered =>
        threads[t] := Loaded(globalCounter);
      case Loaded(value) =>
        threads[t] := Added(value + inputs[t]);
      case Added(value) =>
        globalCounter := value;
        threads[t] := Stored;
      case Stored =>
        threads[t] := Reported;
      case Reported =>
        counterMutex := None;
        threads[t] := Unlocked;
      case Unlocked =>
        threads[t] := Finished(globalCounter);
    }

    /** The next action of the create loop or of the join loop. */
    method MainAction(main: Main, threads: array<Pc>, results: seq<int>, ghost s: State)
      returns (main': Main, results': seq<int>)
      requires MainCanStep(main, threads[..])
      requires s.main == main && s.pcs == threads[..] && s.results == results
      modifies threads
      ensures var s' := ApplyMain(s);
              s'.main == main' && s'.pcs == threads[..] && s'.results == results'
              && s'.counter == s.counter && s'.holder == s.holder
    {
      main', results' := main, results;
      match main
      case Creating(i) =>
        if i < threads.Length {
          threads[i] := Ready;
          main' := Creating(i + 1);
        } else {
          main' := Joining(0);
        }
      case Joining(i) =>
        if i < threads.Length {
          results' := results + [threads[i].result];
          threads[i] := Joined(threads[i].result);
          main' := Joining(i + 1);
        } else {
          main' := Idle;
        }
    }

    /** One turn of the scheduler: some thread that can move performs its next action. */
    method Turn(inputs: seq<int>, main: Main, threads: array<Pc>, results: seq<int>, ghost s: GoodState)
      returns (main': Main, results': seq<int>, ghost s': GoodState)
      requires !main.Idle? && Coupled(inputs, main, threads, results, s)
      modifies this`globalCounter, this`counterMutex, threads
      ensures Coupled(inputs, main', threads, results', s')
      ensures 0 <= Remaining(s') < Remaining(s) && s'.base == s.base
      ensures s'.clicks == if main'.Idle? then s.clicks + [inputs] else s.clicks
    {
      SomeoneCanMove(s);
      var who: int :| -1 <= who < threads.Length && CanMove(who, main, threads[..], counterMutex);
      s' := Moved(s, who);
      main', results' := main, results;
      if who == -1 {
        main', results' := MainAction(main, threads, results, s);
      } else {
        ThreadAction(who, inputs, threads, s);
      }
    }

    /** The create and join loops with every choice left to the scheduler: each turn lets an
        arbitrary thread that can move perform its next action. */
    method Schedule(inputs: seq<int>, threads: array<Pc>, ghost start: GoodState)
      returns (results: seq<int>, ghost end: GoodState)
      requires Coupled(inputs, Creating(0), threads, [], start) && 0 <= Remaining(start)
      modifies this`globalCounter, this`counterMutex, threads
      ensures Coupled(inputs, Idle, threads, results, end)
      ensures end.base == start.base && end.clicks == start.clicks + [inputs]
    {
      var main := Creating(0);
      results := [];
      end := start;
      while !main.Idle?
        invariant Coupled(inputs, main, threads, results, end) && 0 <= Remaining(end)
        invariant end.base == start.base
        invariant end.clicks == if main.Idle? then start.clicks + [inputs] else start.clicks
        decreases Remaining(end)
      {
        main, results, end := Turn(inputs, main, threads, results, end);
      }
    }

    /** All threads of a click, from the first creation to the last join. */
    method RunThreads(inputs: seq<int>) returns (results: seq<int>, ghost end: GoodState)
      requires Valid()
      modifies this
      ensures Valid() && clicks == old(clicks) + [inputs]
      ensures end.main.Idle? && end.inputs == inputs && end.base == old(globalCounter)
      ensures end.counter == globalCounter && end.results == results
    {
      ghost var start := Clicked(globalCounter, clicks, inputs);
      var threads := new Pc[|inputs|](_ => NotCreated);
      assert threads[..] == start.pcs;
      results, end := Schedule(inputs, threads, start);
      EndOfClick(end);
      clicks := end.clicks;
    }

    /** on_start_button_clicked: nothing happens unless the input is valid. */
    method OnStartButtonClicked(numThreadsEntry: int, inputs: seq<int>)
      returns (started: bool, results: seq<int>, ghost order: seq<nat>)
      requires Valid()
      modifies this
      ensures Valid()
      ensures started <==> 1 <= numThreadsEntry <= 10 && Positive(inputs)
      ensures !started ==> globalCounter == old(globalCounter) && clicks == old(clicks) && results == []
      ensures started ==> clicks == old(clicks) + [inputs]
      ensures started ==> Outcome(inputs, old(globalCounter), globalCounter, results, order)
    {
      started, results, order := false, [], [];
      var valid := ValidateInputs(numThreadsEntry, inputs);
      if !valid {
        return;
      }
      started := true;
      ghost var end: GoodState;
      results, end := RunThreads(inputs);
      order := end.order;
      FinishedClick(end);
    }
  }
}
