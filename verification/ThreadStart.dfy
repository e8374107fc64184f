/** The handshake of Thread::start and thread_function in core/Thread.ipp as a state
    machine. One thread calls start(), any number of times; the started thread reads
    the Holder that lives in the frame of that call, and then calls the functor that the
    Holder points to. */
module ThreadStart {

  datatype Option<T> = None | Some(value: T)

  datatype Owner = Free | ByStarter | ByWorker

  /** start(): outside, before the lock, then up to the wait loop. */
  datatype Starter = Outside | Wanting | Locked | Cleared | Testing | Sleeping | Woken

  /** thread_function: not there, before and after copying the holder, inside the
      lock, before and inside the functor, ended. */
  datatype Worker = Absent | Created | Copied | Inside | FlagSet | Notified | Calling | Running | Finished

  /** The three start() functions: the functor is the object itself, a copy in the
      parameter of start(Functor), or an object that the caller keeps. */
  datatype Overload = OfSelf | ByValue | ByPointer

  /** round counts the threads made; frame says whether the Holder of the last call
      still exists, target whether the functor it points to does; holder is the worker's
      copy, None if it read a dead frame. */
  datatype State = State(
    owner: Owner,
    starter: Starter,
    worker: Worker,
    flag: bool,
    round: nat,
    frame: bool,
    overload: Overload,
    target: bool,
    holder: Option<nat>,
    results: seq<bool>)

  datatype Action =
    | StartCall(overload: Overload) | StartRefused | StartLock | StartClear | StartCreate(ok: bool)
    | StartTest | StartWake | StartRelock
    | WorkerCopy | WorkerLock | WorkerSet | WorkerNotify | WorkerUnlock | WorkerCall | WorkerEnd

  function Constructed(): State {
    State(Free, Outside, Absent, false, 0, false, OfSelf, true, None, [])
  }

  /** isRunning(). */
  predicate Running(s: State) {
    s.worker != Absent && s.worker != Finished
  }

  predicate Enabled(s: State, a: Action) {
    match a
    case StartCall(_) => s.starter == Outside && !Running(s)
    case StartRefused => s.starter == Outside && Running(s)
    case StartLock => s.starter == Wanting && s.owner == Free
    case StartClear => s.starter == Locked
    case StartCreate(_) => s.starter == Cleared
    case StartTest => s.starter == Testing
    case StartWake => s.starter == Sleeping
    case StartRelock => s.starter == Woken && s.owner == Free
    case WorkerCopy => s.worker == Created
    case WorkerLock => s.worker == Copied && s.owner == Free
    case WorkerSet => s.worker == Inside
    case WorkerNotify => s.worker == FlagSet
    case WorkerUnlock => s.worker == Notified
    case WorkerCall => s.worker == Calling
    case WorkerEnd => s.worker == Worker.Running
  }

  /** Leaving start() releases the mutex and ends the frame, with the parameter in it. */
  function Returned(s: State, result: bool): State {
    s.(owner := Free, starter := Outside, frame := false, target := s.overload != ByValue, results := s.results + [result])
  }

  function Apply(s: State, a: Action): State
    requires Enabled(s, a)
  {
    match a
    case StartCall(o) => s.(starter := Wanting, frame := true, overload := o, target := true)
    case StartRefused => s.(results := s.results + [false])
    case StartLock => s.(owner := ByStarter, starter := Locked)
    case StartClear => s.(starter := Cleared, flag := false)
    case StartCreate(ok) =>
      if ok then s.(starter := Testing, worker := Created, round := s.round + 1, holder := None)
      else Returned(s, false)
    case StartTest => if s.flag then Returned(s, true) else s.(owner := Free, starter := Sleeping)
    case StartWake => s.(starter := Woken)
    case StartRelock => s.(owner := ByStarter, starter := Testing)
    case WorkerCopy => s.(worker := Copied, holder := if s.frame then Some(s.round) else None)
    case WorkerLock => s.(owner := ByWorker, worker := Inside)
    case WorkerSet => s.(worker := FlagSet, flag := true)
    case WorkerNotify =>
      s.(worker := Notified, starter := if s.starter == Sleeping then Woken else s.starter)
    case WorkerUnlock => s.(owner := Free, worker := Calling)
    case WorkerCall => s.(worker := Worker.Running)
    case WorkerEnd => s.(worker := Finished)
  }

  // ---------------------------------------------------------------- what every step keeps

  predicate Waiting(s: State) {
    s.starter == Testing || s.starter == Sleeping || s.starter == Woken
  }

  predicate Exclusive(s: State) {
    && (s.owner == ByStarter <==> s.starter == Locked || s.starter == Cleared || s.starter == Testing)
    && (s.owner == ByWorker <==> s.worker == Inside || s.worker == FlagSet || s.worker == Notified)
  }

  /** The worker is before the store of startFlag. */
  predicate Early(s: State) {
    s.worker == Created || s.worker == Copied || s.worker == Inside
  }

  predicate Inv(s: State) {
    && Exclusive(s)
    && (s.frame <==> s.starter != Outside)
    && (s.target <==> s.overload != ByValue || s.starter != Outside)
    && (s.starter == Wanting || s.starter == Locked || s.starter == Cleared ==> !Running(s))
    && (s.starter == Cleared ==> !s.flag)
    && (Waiting(s) ==> s.worker != Absent && (s.flag <==> !Early(s)))
    && (Early(s) ==> Waiting(s))
    && (s.worker != Absent && s.worker != Created ==> s.holder == Some(s.round))
    && (s.starter == Sleeping && s.flag ==> s.worker == FlagSet)
  }

  lemma StepKeepsInv(s: State, a: Action)
    requires Inv(s) && Enabled(s, a)
    ensures Inv(Apply(s, a))
  {
  }

  /** start() returns true only after the new thread holds a copy of the Holder of
      this very call, and the frame is there whenever the thread reads it. */
  lemma StartReturnsAfterCopy(s: State, a: Action)
    requires Inv(s) && Enabled(s, a)
    ensures var t := Apply(s, a);
            t.results == s.results + [true] ==> t.starter == Outside && t.holder == Some(t.round)
    ensures a == WorkerCopy ==> s.frame
  {
    assert (s.results + [false])[|s.results|] != (s.results + [true])[|s.results|];
  }

  // ---------------------------------------------------------------- whole runs

  predicate Run(s: State, acts: seq<Action>)
    decreases |acts|
  {
    |acts| > 0 ==> Enabled(s, acts[0]) && Run(Apply(s, acts[0]), acts[1..])
  }

  function After(s: State, acts: seq<Action>): State
    requires Run(s, acts)
    decreases |acts|
  {
    if |acts| == 0 then s else After(Apply(s, acts[0]), acts[1..])
  }

  function Successes(results: seq<bool>): nat {
    if |results| == 0 then 0 else Successes(results[1..]) + (if results[0] then 1 else 0)
  }

  lemma {:induction false} SuccessesAppend(results: seq<bool>, r: bool)
    ensures Successes(results + [r]) == Successes(results) + (if r then 1 else 0)
  {
    if |results| > 0 {
      assert (results + [r])[1..] == results[1..] + [r];
      SuccessesAppend(results[1..], r);
    }
  }

  /** Threads made, and calls that returned true, differ by the call under way. */
  predicate Counted(s: State) {
    s.round == Successes(s.results) + (if Waiting(s) then 1 else 0)
  }

  lemma StepKeepsCount(s: State, a: Action)
    requires Inv(s) && Counted(s) && Enabled(s, a)
    ensures Counted(Apply(s, a))
  {
    SuccessesAppend(s.results, true);
    SuccessesAppend(s.results, false);
  }

  /** In every run every call that returned true made one thread, and every thread
      made is copied, or about to be copied, from its own live Holder. */
  lemma {:induction false} RunKeepsInv(s: State, acts: seq<Action>)
    requires Inv(s) && Counted(s) && Run(s, acts)
    ensures Inv(After(s, acts)) && Counted(After(s, acts))
    decreases |acts|
  {
    if |acts| > 0 {
      hide Inv, Counted, Apply, Enabled;
      StepKeepsInv(s, acts[0]);
      StepKeepsCount(s, acts[0]);
      RunKeepsInv(Apply(s, acts[0]), acts[1..]);
    }
  }

  // ---------------------------------------------------------------- progress

  function Stage(w: Worker): nat {
    match w
    case Absent => 0
    case Created => 8
    case Copied => 7
    case Inside => 6
    case FlagSet => 5
    case Notified => 4
    case Calling => 3
    case Running => 2
    case Finished => 1
  }

  /** Falls with every step of a waiting start(), spurious wakeups apart. */
  function Rank(s: State): nat {
    3 * Stage(s.worker) + (if s.starter == Woken then 2 else if s.starter == Testing then 1 else 0)
  }

  /** A step that is not a spurious wakeup. */
  function NextMove(s: State): Action
    requires Waiting(s)
  {
    if s.owner == ByStarter then StartTest
    else if s.owner == Free && s.starter == Woken then StartRelock
    else if s.worker == Created then WorkerCopy
    else if s.worker == Copied then WorkerLock
    else if s.worker == Inside then WorkerSet
    else if s.worker == FlagSet then WorkerNotify
    else WorkerUnlock
  }

  lemma NeverStuck(s: State)
    requires Inv(s) && Waiting(s)
    ensures Enabled(s, NextMove(s)) && NextMove(s) != StartWake
  {
  }

  lemma StepFalls(s: State, a: Action)
    requires Inv(s) && Waiting(s) && Enabled(s, a) && a != StartWake
    ensures Waiting(Apply(s, a)) ==> Rank(Apply(s, a)) < Rank(s)
    ensures !Waiting(Apply(s, a)) ==> Apply(s, a).results == s.results + [true]
  {
  }

  /** The wait comes to its end: a run during which start() keeps waiting, without
      spurious wakeups, is shorter than the rank of its first state. */
  predicate KeepsWaiting(s: State, acts: seq<Action>)
    requires Run(s, acts)
    decreases |acts|
  {
    Waiting(s) && (|acts| > 0 ==> acts[0] != StartWake && KeepsWaiting(Apply(s, acts[0]), acts[1..]))
  }

  lemma {:induction false} WaitIsBounded(s: State, acts: seq<Action>)
    requires Inv(s) && Run(s, acts) && KeepsWaiting(s, acts)
    ensures |acts| + Rank(After(s, acts)) <= Rank(s)
    decreases |acts|
  {
    if |acts| > 0 {
      StepKeepsInv(s, acts[0]);
      StepFalls(s, acts[0]);
      hide Inv, Apply, Enabled, Rank;
      WaitIsBounded(Apply(s, acts[0]), acts[1..]);
    }
  }

  // ---------------------------------------------------------------- the functor argument

  /** In every state the functor is there if and only if the overload does not take it by
      value, or the call has not returned yet. */
  lemma TargetIff(s: State, acts: seq<Action>)
    requires Inv(s) && Counted(s) && Run(s, acts)
    ensures var t := After(s, acts); t.target <==> t.overload != ByValue || t.starter != Outside
  {
    RunKeepsInv(s, acts);
  }

  /** All calls of the run are of one overload. */
  predicate Uses(acts: seq<Action>, o: Overload) {
    forall i :: 0 <= i < |acts| && acts[i].StartCall? ==> acts[i].overload == o
  }

  /** The thread calls its functor, or is about to, with the functor gone. */
  predicate CallsNothing(s: State) {
    (s.worker == Calling || s.worker == Worker.Running) && !s.target
  }

  /** The last call, if any, was of overload o. */
  predicate Only(s: State, o: Overload) {
    (s.worker == Absent && s.starter == Outside) || s.overload == o
  }

  lemma {:induction false} OverloadStays(s: State, acts: seq<Action>, o: Overload)
    requires Run(s, acts) && Uses(acts, o) && Only(s, o)
    ensures Only(After(s, acts), o)
    decreases |acts|
  {
    if |acts| > 0 {
      assert acts[0].StartCall? ==> acts[0].overload == o;
      OverloadStep(s, acts[0], o);
      hide Enabled, Apply;
      forall i | 0 <= i < |acts[1..]| && acts[1..][i].StartCall? ensures acts[1..][i].overload == o {
        assert acts[1..][i] == acts[i + 1];
      }
      OverloadStays(Apply(s, acts[0]), acts[1..], o);
    }
  }

  lemma OverloadStep(s: State, a: Action, o: Overload)
    requires Enabled(s, a) && (a.StartCall? ==> a.overload == o)
    requires Only(s, o)
    ensures Only(Apply(s, a), o)
  {
  }

  /** An overload is safe, in that no run of its calls makes a thread call a functor that
      is gone, if and only if it does not take the functor by value. The header says of
      start(Functor) that it copies the functor; the copy is its parameter. */
  lemma SafeOverloadIff(o: Overload)
    ensures (forall acts: seq<Action> :: Run(Constructed(), acts) && Uses(acts, o) ==>
               !CallsNothing(After(Constructed(), acts)))
       <==> o != ByValue
  {
    hide Run, After, Uses;
    if o == ByValue {
      FunctorMayBeGone();
      EarlyReturnUses();
    } else {
      forall acts: seq<Action> | Run(Constructed(), acts) && Uses(acts, o)
        ensures !CallsNothing(After(Constructed(), acts))
      {
        hide Inv, Counted, Constructed;
        ConstructedInv(o);
        RunKeepsInv(Constructed(), acts);
        OverloadStays(Constructed(), acts, o);
        OnlyValueCallsNothing(After(Constructed(), acts), o);
      }
    }
  }

  lemma EarlyReturnUses()
    ensures Uses(EarlyReturn(), ByValue)
  {
  }

  lemma ConstructedInv(o: Overload)
    ensures Inv(Constructed()) && Counted(Constructed()) && Only(Constructed(), o)
  {
  }

  lemma OnlyValueCallsNothing(s: State, o: Overload)
    requires Inv(s) && Only(s, o) && o != ByValue
    ensures !CallsNothing(s)
  {
  }

  function EarlyReturn(): seq<Action> {
    [StartCall(ByValue), StartLock, StartClear, StartCreate(true), StartTest, WorkerCopy, WorkerLock,
     WorkerSet, WorkerNotify, WorkerUnlock, StartRelock, StartTest]
  }

  /** A run in which start(Functor) has returned true, with its parameter gone, before the
      thread calls the functor. */
  lemma FunctorMayBeGone()
    ensures Run(Constructed(), EarlyReturn())
    ensures var t := After(Constructed(), EarlyReturn());
            t.results == [true] && t.overload == ByValue && t.worker == Calling && !t.target
  {
    hide Run, After;
    var s := Constructed();
    Nothing(s);
    var none: seq<Action> := [];
    Extended(s, none, StartCall(ByValue));
    var called := none + [StartCall(ByValue)];
    Extended(s, called, StartLock);
    Extended(s, called + [StartLock], StartClear);
    var cleared := called + [StartLock] + [StartClear];
    Extended(s, cleared, StartCreate(true));
    Extended(s, cleared + [StartCreate(true)], StartTest);
    var t := s.(starter := Sleeping, worker := Created, round := 1, frame := true, overload := ByValue);
    var acts := cleared + [StartCreate(true)] + [StartTest];
    assert After(s, acts) == t;
    Handshake(s, acts, t);
    assert acts + [WorkerCopy, WorkerLock, WorkerSet, WorkerNotify, WorkerUnlock, StartRelock, StartTest]
        == EarlyReturn();
  }

  lemma Handshake(s: State, acts: seq<Action>, t: State)
    requires Run(s, acts) && After(s, acts) == t && t.results == []
    requires t.owner == Free && t.starter == Sleeping && t.worker == Created && t.frame && t.overload == ByValue
    ensures var all := acts + [WorkerCopy, WorkerLock, WorkerSet, WorkerNotify, WorkerUnlock, StartRelock, StartTest];
            Run(s, all) && After(s, all).results == [true] && !After(s, all).target && After(s, all).worker == Calling
            && After(s, all).overload == ByValue
  {
    hide Run, After;
    Extended(s, acts, WorkerCopy);
    Extended(s, acts + [WorkerCopy], WorkerLock);
    Extended(s, acts + [WorkerCopy] + [WorkerLock], WorkerSet);
    Extended(s, acts + [WorkerCopy] + [WorkerLock] + [WorkerSet], WorkerNotify);
    var more := acts + [WorkerCopy] + [WorkerLock] + [WorkerSet] + [WorkerNotify];
    Extended(s, more, WorkerUnlock);
    Extended(s, more + [WorkerUnlock], StartRelock);
    Extended(s, more + [WorkerUnlock] + [StartRelock], StartTest);
    assert more + [WorkerUnlock] + [StartRelock] + [StartTest]
        == acts + [WorkerCopy, WorkerLock, WorkerSet, WorkerNotify, WorkerUnlock, StartRelock, StartTest];
  }

  lemma Nothing(s: State)
    ensures Run(s, []) && After(s, []) == s
  {
  }

  lemma {:induction false} Extended(s: State, acts: seq<Action>, a: Action)
    requires Run(s, acts) && Enabled(After(s, acts), a)
    ensures Run(s, acts + [a]) && After(s, acts + [a]) == Apply(After(s, acts), a)
    decreases |acts|
  {
    hide Enabled, Apply;
    if |acts| == 0 {
      assert (acts + [a])[1..] == [];
      Nothing(Apply(s, a));
    } else {
      Extended(Apply(s, acts[0]), acts[1..], a);
      assert (acts + [a])[1..] == acts[1..] + [a];
    }
  }
}
