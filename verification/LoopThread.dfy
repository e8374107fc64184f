/** The loop of LoopThreadBase in core/Thread.ipp with stop(), suspend() and resume()
    as a state machine. Only one caller at a time can be inside the mutex, so one
    control slot stands for any number of controlling threads. */
module LoopThread {

  datatype Owner = Free | ByWorker | ByControl

  /** operator(): before headFunc, at the top of the loop, at the first test of
      stopFlag, at the test of the inner while, waiting, woken, at the second test,
      in sleepFunc, in eachLoop, before tailFunc, returned. */
  datatype Worker = Fresh | Top | Checking | Testing | Sleeping | Woken | Rechecking
                  | Napping | Looping | Ending | Done

  datatype Command = Stop | Suspend | Resume

  /** A control call: outside, locked, flag stored, condition signalled. */
  datatype Control = Outside | Locked(cmd: Command) | Stored(cmd: Command) | Signalled

  /** What happens, in order: the calls of the virtual functions and the stores of
      the flags. */
  datatype Event = Head | Each | Tail | Store(cmd: Command)

  datatype State = State(
    owner: Owner,
    worker: Worker,
    control: Control,
    stop: bool,
    suspend: bool,
    log: seq<Event>)

  datatype Action =
    | WorkerHead | WorkerLock | WorkerCheck | WorkerTest | WorkerWake | WorkerRelock
    | WorkerRecheck | WorkerEach | WorkerBack | WorkerTail
    | ControlLock(cmd: Command) | ControlStore | ControlSignal | ControlUnlock

  predicate Enabled(s: State, a: Action) {
    match a
    case WorkerHead => s.worker == Fresh
    case WorkerLock => s.worker == Top && s.owner == Free
    case WorkerCheck => s.worker == Checking
    case WorkerTest => s.worker == Testing
    case WorkerWake => s.worker == Sleeping
    case WorkerRelock => s.worker == Woken && s.owner == Free
    case WorkerRecheck => s.worker == Rechecking
    case WorkerEach => s.worker == Napping
    case WorkerBack => s.worker == Looping
    case WorkerTail => s.worker == Ending
    case ControlLock(_) => s.control == Outside && s.owner == Free
    case ControlStore => s.control.Locked?
    case ControlSignal => s.control.Stored?
    case ControlUnlock => s.control == Signalled
  }

  function Logged(s: State, e: Event): State {
    s.(log := s.log + [e])
  }

  function WithFlag(s: State, cmd: Command): State {
    match cmd
    case Stop => s.(stop := true)
    case Suspend => s.(suspend := true)
    case Resume => s.(suspend := false)
  }

  function Apply(s: State, a: Action): State
    requires Enabled(s, a)
  {
    match a
    case WorkerHead => Logged(s.(worker := Top), Head)
    case WorkerLock => s.(owner := ByWorker, worker := Checking)
    case WorkerCheck => if s.stop then s.(owner := Free, worker := Ending) else s.(worker := Testing)
    case WorkerTest =>
      if s.suspend && !s.stop then s.(owner := Free, worker := Sleeping) else s.(worker := Rechecking)
    case WorkerWake => s.(worker := Woken)
    case WorkerRelock => s.(owner := ByWorker, worker := Testing)
    case WorkerRecheck => s.(owner := Free, worker := if s.stop then Ending else Napping)
    case WorkerEach => Logged(s.(worker := Looping), Each)
    case WorkerBack => s.(worker := Top)
    case WorkerTail => Logged(s.(worker := Done), Tail)
    case ControlLock(cmd) => s.(owner := ByControl, control := Locked(cmd))
    case ControlStore =>
      Logged(WithFlag(s.(control := Stored(s.control.cmd)), s.control.cmd), Store(s.control.cmd))
    case ControlSignal =>
      s.(control := Signalled, worker := if s.worker == Sleeping then Woken else s.worker)
    case ControlUnlock => s.(owner := Free, control := Outside)
  }

  /** A thread just started; its flags keep what earlier calls stored in them. */
  function Started(stop: bool, suspend: bool): State {
    State(Free, Fresh, Outside, stop, suspend,
          (if stop then [Store(Stop)] else []) + (if suspend then [Store(Suspend)] else []))
  }

  // ---------------------------------------------------------------- reading the log

  predicate IsWork(e: Event) {
    !e.Store?
  }

  /** The calls of headFunc, eachLoop and tailFunc. */
  function Work(log: seq<Event>): (w: seq<Event>) {
    if |log| == 0 then []
    else
      var n := |log| - 1;
      if IsWork(log[n]) then Work(log[..n]) + [log[n]] else Work(log[..n])
  }

  predicate StopSeen(log: seq<Event>) {
    Store(Stop) in log
  }

  /** The last suspend() came after the last resume(). */
  predicate SuspendSeen(log: seq<Event>) {
    if |log| == 0 then false
    else
      var n := |log| - 1;
      if log[n] == Store(Suspend) then true
      else if log[n] == Store(Resume) then false
      else SuspendSeen(log[..n])
  }

  function LoopsAfterStop(log: seq<Event>): nat {
    if |log| == 0 then 0
    else
      var n := |log| - 1;
      LoopsAfterStop(log[..n]) + (if log[n] == Each && StopSeen(log[..n]) then 1 else 0)
  }

  /** The calls of eachLoop during the suspension that is on, counted from the first
      suspend() of it. */
  function LoopsSuspended(log: seq<Event>): (n: nat)
    ensures !SuspendSeen(log) ==> n == 0
  {
    if |log| == 0 || !SuspendSeen(log) then 0
    else
      var n := |log| - 1;
      LoopsSuspended(log[..n]) + (if log[n] == Each then 1 else 0)
  }

  lemma LogStep(log: seq<Event>, e: Event)
    ensures Work(log + [e]) == if IsWork(e) then Work(log) + [e] else Work(log)
    ensures StopSeen(log + [e]) <==> StopSeen(log) || e == Store(Stop)
    ensures SuspendSeen(log + [e]) <==> e == Store(Suspend) || (e != Store(Resume) && SuspendSeen(log))
    ensures LoopsAfterStop(log + [e]) == LoopsAfterStop(log) + (if e == Each && StopSeen(log) then 1 else 0)
    ensures LoopsSuspended(log + [e])
         == if SuspendSeen(log + [e]) then LoopsSuspended(log) + (if e == Each then 1 else 0) else 0
  {
    assert (log + [e])[..|log|] == log;
  }

  // ---------------------------------------------------------------- what every step keeps

  predicate Exclusive(s: State) {
    && (s.owner == ByWorker <==> s.worker == Checking || s.worker == Testing || s.worker == Rechecking)
    && (s.owner == ByControl <==> s.control != Outside)
  }

  /** The worker sleeps although it should go on only while a control call has the
      signal still ahead. */
  predicate NoLostWakeup(s: State) {
    s.worker == Sleeping && (s.stop || !s.suspend) ==> s.control.Stored?
  }

  predicate AllEach(w: seq<Event>) {
    forall i :: 0 <= i < |w| ==> w[i] == Each
  }

  /** headFunc once and first, tailFunc once and last, eachLoop in between. */
  predicate Ordered(worker: Worker, w: seq<Event>) {
    if worker == Fresh then w == []
    else if worker == Done then
      |w| >= 2 && w[0] == Head && w[|w| - 1] == Tail && AllEach(w[1..|w| - 1])
    else |w| >= 1 && w[0] == Head && AllEach(w[1..])
  }

  /** The worker has passed its tests and eachLoop is still to come. */
  function Pending(s: State): nat {
    if s.worker == Napping then 1 else 0
  }

  predicate Bounded(s: State) {
    && (s.stop <==> StopSeen(s.log))
    && (s.suspend <==> SuspendSeen(s.log))
    && (s.stop ==> LoopsAfterStop(s.log) + Pending(s) <= 1)
    && (!s.stop ==> LoopsAfterStop(s.log) == 0)
    && (s.suspend ==> LoopsSuspended(s.log) + Pending(s) <= 1)
  }

  predicate Tested(s: State) {
    && (s.worker == Rechecking ==> s.stop || !s.suspend)
    && (s.worker == Ending || s.worker == Done ==> s.stop)
  }

  predicate Inv(s: State) {
    Exclusive(s) && NoLostWakeup(s) && Tested(s) && Bounded(s) && Ordered(s.worker, Work(s.log))
  }

  lemma StartedInv(stop: bool, suspend: bool)
    ensures Inv(Started(stop, suspend))
  {
    var none: seq<Event> := [];
    LogStep(none, Store(Stop));
    LogStep(none + [Store(Stop)], Store(Suspend));
    LogStep(none, Store(Suspend));
    assert none + [Store(Stop)] == [Store(Stop)] && none + [Store(Suspend)] == [Store(Suspend)];
  }

  lemma StepKeepsControl(s: State, a: Action)
    requires Exclusive(s) && NoLostWakeup(s) && Tested(s) && Enabled(s, a)
    ensures var t := Apply(s, a); Exclusive(t) && NoLostWakeup(t) && Tested(t)
  {
  }

  lemma StepKeepsBounds(s: State, a: Action)
    requires Inv(s) && Enabled(s, a)
    ensures Bounded(Apply(s, a))
  {
    hide Work, StopSeen, SuspendSeen, LoopsAfterStop, LoopsSuspended, Ordered, NoLostWakeup, IsWork;
    StepLogs(s, a);
  }

  /** The event an action adds to the log. */
  predicate Logs(s: State, a: Action, e: Event)
    requires Enabled(s, a)
  {
    match a
    case WorkerHead => e == Head
    case WorkerEach => e == Each
    case WorkerTail => e == Tail
    case ControlStore => e == Store(s.control.cmd)
    case _ => false
  }

  lemma StepLogs(s: State, a: Action)
    requires Enabled(s, a)
    ensures forall e: Event :: Logs(s, a, e) ==>
      var t := Apply(s, a).log;
      && Work(t) == (if IsWork(e) then Work(s.log) + [e] else Work(s.log))
      && (StopSeen(t) <==> StopSeen(s.log) || e == Store(Stop))
      && (SuspendSeen(t) <==> e == Store(Suspend) || (e != Store(Resume) && SuspendSeen(s.log)))
      && LoopsAfterStop(t) == LoopsAfterStop(s.log) + (if e == Each && StopSeen(s.log) then 1 else 0)
      && LoopsSuspended(t) == if SuspendSeen(t) then LoopsSuspended(s.log) + (if e == Each then 1 else 0) else 0
    ensures a != WorkerHead && a != WorkerEach && a != WorkerTail && a != ControlStore ==>
      Apply(s, a).log == s.log
  {
    hide Work, StopSeen, SuspendSeen, LoopsAfterStop, LoopsSuspended, IsWork;
    match a {
      case WorkerHead => LogStep(s.log, Head);
      case WorkerEach => LogStep(s.log, Each);
      case WorkerTail => LogStep(s.log, Tail);
      case ControlStore => LogStep(s.log, Store(s.control.cmd));
      case _ =>
    }
  }

  lemma StepKeepsOrder(s: State, a: Action)
    requires Inv(s) && Enabled(s, a)
    ensures Ordered(Apply(s, a).worker, Work(Apply(s, a).log))
  {
    hide Work, StopSeen, SuspendSeen, LoopsAfterStop, LoopsSuspended, NoLostWakeup, Bounded;
    StepLogs(s, a);
  }

  lemma StepKeepsInv(s: State, a: Action)
    requires Inv(s) && Enabled(s, a)
    ensures Inv(Apply(s, a))
  {
    StepKeepsControl(s, a);
    StepKeepsBounds(s, a);
    StepKeepsOrder(s, a);
  }

  // ---------------------------------------------------------------- whole runs

  predicate Run(s: State, acts: seq<Action>)
    decreases |acts|
  {
    |acts| > 0 ==> Enabled(s, acts[0]) && Run(Apply(s, acts[0]), acts[1..])
  }

  function After(s: State, acts: seq<Action>): State
    requires Run(s, acts)
    decreases |acts|
  {
    if |acts| == 0 then s else After(Apply(s, acts[0]), acts[1..])
  }

  lemma {:induction false} RunKeepsInv(s: State, acts: seq<Action>)
    requires Inv(s) && Run(s, acts)
    ensures Inv(After(s, acts))
    decreases |acts|
  {
    if |acts| > 0 {
      hide Inv, Apply, Enabled;
      StepKeepsInv(s, acts[0]);
      RunKeepsInv(Apply(s, acts[0]), acts[1..]);
    }
  }

  /** Over every run: the calls come in order, at most one eachLoop starts after the
      first stop(), and at most one in a suspension. */
  lemma RunObeys(stop: bool, suspend: bool, acts: seq<Action>)
    requires Run(Started(stop, suspend), acts)
    ensures var t := After(Started(stop, suspend), acts);
            && Ordered(t.worker, Work(t.log))
            && LoopsAfterStop(t.log) <= 1 && LoopsSuspended(t.log) <= 1
  {
    StartedInv(stop, suspend);
    RunKeepsInv(Started(stop, suspend), acts);
  }

  // ---------------------------------------------------------------- progress after stop()

  predicate IsWorker(a: Action) {
    !(a.ControlLock? || a.ControlStore? || a.ControlSignal? || a.ControlUnlock?)
  }

  /** The worker's steps to the end once stopFlag is set. */
  function Rank(w: Worker): nat {
    match w
    case Done => 0
    case Ending => 1
    case Rechecking => 2
    case Testing => 3
    case Checking => 2
    case Top => 3
    case Looping => 4
    case Napping => 5
    case Woken => 4
    case Sleeping => 5
    case Fresh => 4
  }

  function WorkerNext(w: Worker): Action {
    match w
    case Fresh => WorkerHead
    case Top => WorkerLock
    case Checking => WorkerCheck
    case Testing => WorkerTest
    case Sleeping => WorkerWake
    case Woken => WorkerRelock
    case Rechecking => WorkerRecheck
    case Napping => WorkerEach
    case Looping => WorkerBack
    case Ending => WorkerTail
    case Done => WorkerTail
  }

  function WorkerSteps(acts: seq<Action>): nat {
    if |acts| == 0 then 0 else (if IsWorker(acts[0]) then 1 else 0) + WorkerSteps(acts[1..])
  }

  lemma StopFalls(s: State, a: Action)
    requires s.stop && Tested(s) && Enabled(s, a)
    ensures Apply(s, a).stop
    ensures Rank(Apply(s, a).worker) + (if IsWorker(a) then 1 else 0) <= Rank(s.worker)
  {
  }

  /** After stop() the worker takes at most Rank more steps, whatever the control
      threads do; and it is never stuck: outside control calls it is not asleep and,
      until it has run tailFunc, it can go on. */
  lemma {:induction false} StopEnds(s: State, acts: seq<Action>)
    requires Inv(s) && s.stop && Run(s, acts)
    ensures var t := After(s, acts);
            && WorkerSteps(acts) + Rank(t.worker) <= Rank(s.worker)
            && (t.control == Outside && t.worker != Done ==>
                  t.worker != Sleeping && Enabled(t, WorkerNext(t.worker)))
            && (t.worker == Done ==> Tail in t.log)
    decreases |acts|
  {
    if |acts| > 0 {
      StepKeepsInv(s, acts[0]);
      StopFalls(s, acts[0]);
      hide Inv, Apply, Enabled, Rank;
      StopEnds(Apply(s, acts[0]), acts[1..]);
    } else if s.worker == Done {
      WorkInLog(s.log, |Work(s.log)| - 1);
    }
  }

  lemma {:induction false} WorkInLog(log: seq<Event>, i: nat)
    requires i < |Work(log)|
    ensures Work(log)[i] in log
  {
    var n := |log| - 1;
    if i < |Work(log[..n])| { WorkInLog(log[..n], i); }
  }

  /** resume() always takes effect: outside control calls a worker that is neither
      suspended nor stopped is not asleep. */
  lemma ResumeWakes(s: State)
    requires Inv(s) && s.control == Outside && !s.suspend
    ensures s.worker != Sleeping && (s.worker != Done ==> Enabled(s, WorkerNext(s.worker)))
  {
  }

  // ---------------------------------------------------------------- starting again

  /** stop() is for good: nothing clears stopFlag, so a thread started again runs
      headFunc and tailFunc only. */
  lemma {:induction false} RestartIsEmpty(suspend: bool, acts: seq<Action>)
    requires Run(Started(true, suspend), acts)
    ensures Each !in After(Started(true, suspend), acts).log
  {
    RestartRun(Started(true, suspend), acts);
  }

  predicate Barren(s: State) {
    s.stop && s.worker != Napping && s.worker != Looping && Each !in s.log
  }

  lemma {:induction false} RestartRun(s: State, acts: seq<Action>)
    requires Barren(s) && Run(s, acts)
    ensures Barren(After(s, acts))
    decreases |acts|
  {
    if |acts| > 0 { RestartRun(Apply(s, acts[0]), acts[1..]); }
  }

  /** A run of a started thread reaches eachLoop if and only if the stop flag was clear:
      a suspension can be lifted, a stop cannot. */
  lemma EachRunsIff(stop: bool, suspend: bool)
    ensures (exists acts: seq<Action> :: Run(Started(stop, suspend), acts)
               && Each in After(Started(stop, suspend), acts).log)
       <==> !stop
  {
    hide Run, After;
    if stop {
      forall acts: seq<Action> | Run(Started(stop, suspend), acts)
        ensures Each !in After(Started(stop, suspend), acts).log
      {
        RestartIsEmpty(suspend, acts);
      }
    } else {
      var acts := if suspend then Resuming() + FirstLoop() else FirstLoop();
      LoopIsReached(suspend);
      assert Run(Started(stop, suspend), acts) && Each in After(Started(stop, suspend), acts).log;
    }
  }

  function Resuming(): seq<Action> {
    [ControlLock(Resume), ControlStore, ControlSignal, ControlUnlock]
  }

  function FirstLoop(): seq<Action> {
    [WorkerHead, WorkerLock, WorkerCheck, WorkerTest, WorkerRecheck, WorkerEach]
  }

  lemma LoopIsReached(suspend: bool)
    ensures var acts := if suspend then Resuming() + FirstLoop() else FirstLoop();
      Run(Started(false, suspend), acts) && Each in After(Started(false, suspend), acts).log
  {
    var s := Started(false, suspend);
    if suspend {
      hide Run, After;
      Nothing(s);
      var none: seq<Action> := [];
      Extended(s, none, ControlLock(Resume));
      Extended(s, none + [ControlLock(Resume)], ControlStore);
      Extended(s, none + [ControlLock(Resume)] + [ControlStore], ControlSignal);
      Extended(s, none + [ControlLock(Resume)] + [ControlStore] + [ControlSignal], ControlUnlock);
      var acts := none + [ControlLock(Resume)] + [ControlStore] + [ControlSignal] + [ControlUnlock];
      assert acts == Resuming();
      LoopFrom(s, acts);
    } else {
      Nothing(s);
      LoopFrom(s, []);
      assert [] + FirstLoop() == FirstLoop();
    }
  }

  lemma LoopFrom(s: State, acts: seq<Action>)
    requires Run(s, acts)
    requires var t := After(s, acts);
      t.worker == Fresh && t.owner == Free && !t.stop && !t.suspend && t.control == Outside
    ensures Run(s, acts + FirstLoop()) && Each in After(s, acts + FirstLoop()).log
  {
    hide Run, After;
    Extended(s, acts, WorkerHead);
    Extended(s, acts + [WorkerHead], WorkerLock);
    Extended(s, acts + [WorkerHead] + [WorkerLock], WorkerCheck);
    var more := acts + [WorkerHead] + [WorkerLock] + [WorkerCheck];
    Extended(s, more, WorkerTest);
    Extended(s, more + [WorkerTest], WorkerRecheck);
    Extended(s, more + [WorkerTest] + [WorkerRecheck], WorkerEach);
    assert more + [WorkerTest] + [WorkerRecheck] + [WorkerEach] == acts + FirstLoop();
  }

  lemma Nothing(s: State)
    ensures Run(s, []) && After(s, []) == s
  {
  }

  lemma {:induction false} Extended(s: State, acts: seq<Action>, a: Action)
    requires Run(s, acts) && Enabled(After(s, acts), a)
    ensures Run(s, acts + [a]) && After(s, acts + [a]) == Apply(After(s, acts), a)
    decreases |acts|
  {
    hide Enabled, Apply;
    if |acts| == 0 {
      assert (acts + [a])[1..] == [];
      Nothing(Apply(s, a));
    } else {
      Extended(Apply(s, acts[0]), acts[1..], a);
      assert (acts + [a])[1..] == acts[1..] + [a];
    }
  }
}
