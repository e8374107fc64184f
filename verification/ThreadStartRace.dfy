/** Two threads that call Thread::start of one object (core/Thread.ipp). isRunning() is
    tested without the mutex, so both can pass it; the calls then share one start flag
    and one condition. */
module ThreadStartRace {

  /** Which of the two calls. */
  datatype Who = A | B

  function Other(w: Who): Who {
    if w == A then B else A
  }

  datatype Owner = Free | Starter(w: Who) | Worker(w: Who)

  /** A call: not made, past isRunning(), then up to the wait loop, returned. */
  datatype Caller = Idle | Passed | Locked | Cleared | Testing | Sleeping | Woken | Returned

  /** The thread a call makes: it copies the Holder of that call, stores the flag under
      the mutex, signals, and goes on to the functor. */
  datatype Thread = Absent | Created | Copied | Inside | FlagSet | Notified | Calling | Finished

  /** intact: the thread has not read a Holder whose frame was gone. */
  datatype Call = Call(caller: Caller, thread: Thread, intact: bool)

  datatype State = State(owner: Owner, flag: bool, a: Call, b: Call)

  datatype Action =
    | Pass(w: Who) | Lock(w: Who) | Clear(w: Who) | Create(w: Who) | Test(w: Who) | Relock(w: Who)
    | Copy(w: Who) | ThreadLock(w: Who) | Set(w: Who) | Signal(w: Who, woken: Who) | Unlock(w: Who) | End(w: Who)

  function Of(s: State, w: Who): Call {
    if w == A then s.a else s.b
  }

  function With(s: State, w: Who, c: Call): State {
    if w == A then s.(a := c) else s.(b := c)
  }

  predicate IsRunning(c: Call) {
    c.thread != Absent && c.thread != Finished
  }

  /** The frame of the call, with the Holder in it, exists. */
  predicate Frame(c: Call) {
    c.caller != Idle && c.caller != Returned
  }

  predicate Enabled(s: State, x: Action) {
    var c := Of(s, x.w);
    match x
    case Pass(_) => c.caller == Idle && !IsRunning(s.a) && !IsRunning(s.b)
    case Lock(_) => c.caller == Passed && s.owner == Free
    case Clear(_) => c.caller == Locked
    case Create(_) => c.caller == Cleared
    case Test(_) => c.caller == Testing
    case Relock(_) => c.caller == Woken && s.owner == Free
    case Copy(_) => c.thread == Created
    case ThreadLock(_) => c.thread == Copied && s.owner == Free
    case Set(_) => c.thread == Inside
    // the signal wakes one sleeper, and none if nobody sleeps
    case Signal(_, v) => c.thread == FlagSet && (Of(s, v).caller == Sleeping || Of(s, Other(v)).caller != Sleeping)
    case Unlock(_) => c.thread == Notified
    case End(_) => c.thread == Calling
  }

  function Apply(s: State, x: Action): State
    requires Enabled(s, x)
  {
    var c := Of(s, x.w);
    match x
    case Pass(w) => With(s, w, c.(caller := Passed))
    case Lock(w) => With(s, w, c.(caller := Locked)).(owner := Starter(w))
    case Clear(w) => With(s, w, c.(caller := Cleared)).(flag := false)
    case Create(w) => With(s, w, c.(caller := Testing, thread := Created))
    case Test(w) => With(s, w, c.(caller := if s.flag then Returned else Sleeping)).(owner := Free)
    case Relock(w) => With(s, w, c.(caller := Testing)).(owner := Starter(w))
    case Copy(w) => With(s, w, c.(thread := Copied, intact := Frame(c)))
    case ThreadLock(w) => With(s, w, c.(thread := Inside)).(owner := Worker(w))
    case Set(w) => With(s, w, c.(thread := FlagSet)).(flag := true)
    case Signal(w, v) =>
      var t := With(s, w, c.(thread := Notified));
      if Of(t, v).caller == Sleeping then With(t, v, Of(t, v).(caller := Woken)) else t
    case Unlock(w) => With(s, w, c.(thread := Calling)).(owner := Free)
    case End(w) => With(s, w, c.(thread := Finished))
  }

  function Start(): State {
    State(Free, false, Call(Idle, Absent, true), Call(Idle, Absent, true))
  }

  predicate Run(s: State, acts: seq<Action>)
    decreases |acts|
  {
    |acts| > 0 ==> Enabled(s, acts[0]) && Run(Apply(s, acts[0]), acts[1..])
  }

  function After(s: State, acts: seq<Action>): State
    requires Run(s, acts)
    decreases |acts|
  {
    if |acts| == 0 then s else After(Apply(s, acts[0]), acts[1..])
  }

  /** A call or its thread is inside its critical section exactly when it owns the mutex. */
  predicate Exclusive(s: State) {
    && (s.owner == Starter(A) <==> Holds(s.a)) && (s.owner == Starter(B) <==> Holds(s.b))
    && (s.owner == Worker(A) <==> ThreadHolds(s.a)) && (s.owner == Worker(B) <==> ThreadHolds(s.b))
  }

  predicate Holds(c: Call) {
    c.caller == Locked || c.caller == Cleared || c.caller == Testing
  }

  predicate ThreadHolds(c: Call) {
    c.thread == Inside || c.thread == FlagSet || c.thread == Notified
  }

  /** Also for calls that overlap: of the two callers and the two threads at most one is
      inside at any time of any run. */
  lemma {:induction false} RunExcludes(s: State, acts: seq<Action>)
    requires Exclusive(s) && Run(s, acts)
    ensures Exclusive(After(s, acts))
    decreases |acts|
  {
    if |acts| > 0 {
      StepExcludes(s, acts[0]);
      hide Enabled, Apply, Exclusive;
      RunExcludes(Apply(s, acts[0]), acts[1..]);
    }
  }

  lemma StepExcludes(s: State, x: Action)
    requires Exclusive(s) && Enabled(s, x)
    ensures Exclusive(Apply(s, x))
  {
  }

  // ---------------------------------------------------------------- calls one after the other

  /** No call tests isRunning() while the other is under way. */
  predicate Serial(s: State, acts: seq<Action>)
    requires Run(s, acts)
    decreases |acts|
  {
    |acts| > 0 ==>
      && (acts[0].Pass? ==> !Frame(Of(s, Other(acts[0].w))))
      && Serial(Apply(s, acts[0]), acts[1..])
  }

  /** A thread before its store of the flag. */
  predicate Early(c: Call) {
    c.thread == Created || c.thread == Copied || c.thread == Inside
  }

  predicate CallOk(s: State, c: Call) {
    && c.intact
    && (Early(c) ==> (c.caller == Testing || c.caller == Sleeping || c.caller == Woken) && !s.flag)
    && (c.caller == Cleared ==> !s.flag)
    && (c.caller == Idle || c.caller == Passed || c.caller == Locked || c.caller == Cleared ==> c.thread == Absent)
  }

  predicate SerialInv(s: State) {
    && CallOk(s, s.a) && CallOk(s, s.b)
    && !(Frame(s.a) && Frame(s.b))
    && (Frame(s.a) ==> !IsRunning(s.b)) && (Frame(s.b) ==> !IsRunning(s.a))
  }

  lemma SerialStep(s: State, x: Action)
    requires SerialInv(s) && Enabled(s, x) && (x.Pass? ==> !Frame(Of(s, Other(x.w))))
    ensures SerialInv(Apply(s, x))
  {
  }

  /** Calls that do not overlap are safe: in every run both threads read live frames. */
  lemma {:induction false} SerialCallsAreSafe(s: State, acts: seq<Action>)
    requires SerialInv(s) && Run(s, acts) && Serial(s, acts)
    ensures After(s, acts).a.intact && After(s, acts).b.intact
    decreases |acts|
  {
    if |acts| > 0 {
      SerialStep(s, acts[0]);
      hide Enabled, Apply, SerialInv;
      SerialCallsAreSafe(Apply(s, acts[0]), acts[1..]);
    }
  }

  // ---------------------------------------------------------------- calls that overlap

  /** Both pass isRunning(); each makes a thread and sleeps; the thread of A sets the flag
      and its signal wakes B, which returns before its own thread has read the Holder. */
  function Overlap(): seq<Action> {
    BothWait() + AIsCopied() + BIsWoken()
  }

  function BothWait(): seq<Action> {
    [Pass(A), Pass(B), Lock(A), Clear(A), Create(A), Test(A)]
  }

  function AIsCopied(): seq<Action> {
    [Lock(B), Clear(B), Create(B), Test(B), Copy(A), ThreadLock(A)]
  }

  function BIsWoken(): seq<Action> {
    [Set(A), Signal(A, B), Unlock(A), Relock(B), Test(B), Copy(B)]
  }

  predicate Leads(s: State, acts: seq<Action>, t: State) {
    Run(s, acts) && After(s, acts) == t
  }

  lemma One(s: State, x: Action)
    requires Enabled(s, x)
    ensures Leads(s, [x], Apply(s, x))
  {
    hide Enabled, Apply;
    assert [x][1..] == [];
    assert Run(Apply(s, x), []) && After(Apply(s, x), []) == Apply(s, x);
  }

  lemma {:induction false} Then(s: State, x: seq<Action>, t: State, y: seq<Action>, u: State)
    requires Leads(s, x, t) && Leads(t, y, u)
    ensures Leads(s, x + y, u)
    decreases |x|
  {
    hide Enabled, Apply;
    if |x| == 0 {
      assert x + y == y;
    } else {
      Then(Apply(s, x[0]), x[1..], t, y, u);
      assert (x + y)[1..] == x[1..] + y;
    }
  }

  lemma Six(s: State, a: Action, b: Action, c: Action, d: Action, e: Action, f: Action)
    requires Enabled(s, a) && Enabled(Apply(s, a), b) && Enabled(Apply(Apply(s, a), b), c)
    requires Enabled(Apply(Apply(Apply(s, a), b), c), d)
    requires Enabled(Apply(Apply(Apply(Apply(s, a), b), c), d), e)
    requires Enabled(Apply(Apply(Apply(Apply(Apply(s, a), b), c), d), e), f)
    ensures Leads(s, [a, b, c, d, e, f], Apply(Apply(Apply(Apply(Apply(Apply(s, a), b), c), d), e), f))
  {
    hide Enabled, Apply, Leads;
    var s1 := Apply(s, a);
    var s2 := Apply(s1, b);
    var s3 := Apply(s2, c);
    var s4 := Apply(s3, d);
    var s5 := Apply(s4, e);
    One(s, a);
    One(s1, b);
    One(s2, c);
    One(s3, d);
    One(s4, e);
    One(s5, f);
    Then(s, [a], s1, [b], s2);
    Then(s, [a] + [b], s2, [c], s3);
    Then(s, [a] + [b] + [c], s3, [d], s4);
    Then(s, [a] + [b] + [c] + [d], s4, [e], s5);
    Then(s, [a] + [b] + [c] + [d] + [e], s5, [f], Apply(s5, f));
    assert [a] + [b] + [c] + [d] + [e] + [f] == [a, b, c, d, e, f];
  }

  /** A waits for its thread, B is past isRunning(). */
  function AWaits(): State {
    Start().(a := Call(Sleeping, Created, true), b := Call(Passed, Absent, true))
  }

  /** Both wait, and the thread of A is about to set the flag. */
  function BWaits(): State {
    Start().(owner := Worker(A), a := Call(Sleeping, Inside, true), b := Call(Sleeping, Created, true))
  }

  /** B has returned before its thread read the Holder. */
  function BReturned(): State {
    Start().(flag := true, a := Call(Sleeping, Calling, true), b := Call(Returned, Copied, false))
  }

  lemma FirstPart()
    ensures Leads(Start(), BothWait(), AWaits())
  {
    hide Leads;
    Six(Start(), Pass(A), Pass(B), Lock(A), Clear(A), Create(A), Test(A));
  }

  lemma SecondPart()
    ensures Leads(AWaits(), AIsCopied(), BWaits())
  {
    hide Leads;
    Six(AWaits(), Lock(B), Clear(B), Create(B), Test(B), Copy(A), ThreadLock(A));
  }

  lemma ThirdPart()
    ensures Leads(BWaits(), BIsWoken(), BReturned())
  {
    hide Leads;
    Six(BWaits(), Set(A), Signal(A, B), Unlock(A), Relock(B), Test(B), Copy(B));
  }

  /** The run is possible, start() of B has returned true, and its thread has read a
      Holder that is gone. */
  lemma OverlapReadsDeadFrame()
    ensures Run(Start(), Overlap())
    ensures var s := After(Start(), Overlap()); s.b.caller == Returned && s.b.thread == Copied && !s.b.intact
  {
    FirstPart();
    SecondPart();
    ThirdPart();
    hide Enabled, Apply, BothWait, AIsCopied, BIsWoken, AWaits, BWaits;
    Then(Start(), BothWait(), AWaits(), AIsCopied(), BWaits());
    Then(Start(), BothWait() + AIsCopied(), BWaits(), BIsWoken(), BReturned());
  }
}
