/** The background writer of misc/FileWriteProxy.ipp as a state machine. A step
    is an atomic action of one thread: the consumer (operator()), a producer
    inside write(), or the thread that calls close(). Producers outside the
    mutex carry no state, so one writer slot stands for all of them. */
module FileWriteProxy {

  type Byte = bv8

  datatype Owner = Free | ByConsumer | ByWriter | ByCloser

  /** Program points of the consumer loop. */
  datatype Consumer = AtTop | Checking | Testing | Sleeping | Woken | Rechecking | Draining | Syncing | Exited

  /** A producer: outside, pushing what is left of its buffer, or past its notify. */
  datatype Writer = Outside | Pushing(rest: seq<Byte>) | Notified

  datatype Closer = NotClosing | Locked | StopSet | StopNotified | Joining | Closed

  datatype Proxy = Proxy(
    owner: Owner,
    consumer: Consumer,
    writer: Writer,
    closer: Closer,
    queue: seq<Byte>,
    stop: bool,
    file: seq<Byte>)

  datatype Action =
    | ConsumerLock | ConsumerCheck | ConsumerTest | ConsumerWake | ConsumerRelock
    | ConsumerRecheck | ConsumerDrain | ConsumerSync
    | WriterLock(buf: seq<Byte>) | WriterPush | WriterNotify | WriterUnlock
    | CloserLock | CloserSetStop | CloserNotify | CloserUnlock | CloserJoin

  /** A proxy just opened on a file with the given bytes. */
  function Opened(file: seq<Byte>): Proxy {
    Proxy(Free, AtTop, Outside, NotClosing, [], false, file)
  }

  /** A file no thread works on. */
  function Dormant(file: seq<Byte>): Proxy {
    Proxy(Free, Exited, Outside, Closed, [], true, file)
  }

  predicate Enabled(p: Proxy, a: Action) {
    match a
    case ConsumerLock => p.consumer == AtTop && p.owner == Free
    case ConsumerCheck => p.consumer == Checking
    case ConsumerTest => p.consumer == Testing
    case ConsumerWake => p.consumer == Sleeping
    case ConsumerRelock => p.consumer == Woken && p.owner == Free
    case ConsumerRecheck => p.consumer == Rechecking
    case ConsumerDrain => p.consumer == Draining
    case ConsumerSync => p.consumer == Syncing
    case WriterLock(_) => p.writer == Outside && p.owner == Free
    case WriterPush => p.writer.Pushing? && p.writer.rest != []
    case WriterNotify => p.writer == Pushing([])
    case WriterUnlock => p.writer == Notified
    case CloserLock => p.closer == NotClosing && p.owner == Free
    case CloserSetStop => p.closer == Locked
    case CloserNotify => p.closer == StopSet
    case CloserUnlock => p.closer == StopNotified
    case CloserJoin => p.closer == Joining && p.consumer == Exited
  }

  /** pthread_cond_signal: it wakes the consumer if it sleeps, else it is lost. */
  function Signal(c: Consumer): Consumer {
    if c == Sleeping then Woken else c
  }

  function Apply(p: Proxy, a: Action): Proxy
    requires Enabled(p, a)
  {
    match a
    case ConsumerLock => p.(owner := ByConsumer, consumer := Checking)
    case ConsumerCheck =>
      if p.queue == [] && p.stop then p.(owner := Free, consumer := Exited) else p.(consumer := Testing)
    case ConsumerTest =>
      if p.queue == [] && !p.stop then p.(owner := Free, consumer := Sleeping) else p.(consumer := Rechecking)
    case ConsumerWake => p.(consumer := Woken)
    case ConsumerRelock => p.(owner := ByConsumer, consumer := Testing)
    case ConsumerRecheck =>
      if p.queue == [] && p.stop then p.(owner := Free, consumer := Exited) else p.(consumer := Draining)
    case ConsumerDrain => p.(owner := Free, consumer := Syncing, file := p.file + p.queue, queue := [])
    case ConsumerSync => p.(consumer := AtTop)
    case WriterLock(buf) => p.(owner := ByWriter, writer := Pushing(buf))
    case WriterPush => p.(writer := Pushing(p.writer.rest[1..]), queue := p.queue + [p.writer.rest[0]])
    case WriterNotify => p.(writer := Notified, consumer := Signal(p.consumer))
    case WriterUnlock => p.(owner := Free, writer := Outside)
    case CloserLock => p.(owner := ByCloser, closer := Locked)
    case CloserSetStop => p.(closer := StopSet, stop := true)
    case CloserNotify => p.(closer := StopNotified, consumer := Signal(p.consumer))
    case CloserUnlock => p.(owner := Free, closer := Joining)
    case CloserJoin => p.(closer := Closed)
  }

  // ---------------------------------------------------------------- what every step keeps

  /** Mutual exclusion: a thread is inside a critical section exactly when it
      owns the mutex. */
  predicate Exclusive(p: Proxy) {
    && (p.owner == ByConsumer <==>
         p.consumer == Checking || p.consumer == Testing || p.consumer == Rechecking || p.consumer == Draining)
    && (p.owner == ByWriter <==> p.writer != Outside)
    && (p.owner == ByCloser <==> p.closer == Locked || p.closer == StopSet || p.closer == StopNotified)
  }

  /** The consumer sleeps over work, or over a stop request, only while the
      thread that brought it still owns the mutex and has its notify ahead. */
  predicate NoLostWakeup(p: Proxy) {
    p.consumer == Sleeping ==>
      && (p.queue != [] ==> p.owner == ByWriter && p.writer.Pushing?)
      && (p.stop ==> p.owner == ByCloser && p.closer == StopSet)
  }

  predicate Inv(p: Proxy) {
    && Exclusive(p)
    && NoLostWakeup(p)
    && (p.stop <==> p.closer != NotClosing && p.closer != Locked)
    && (p.consumer == Exited ==> p.stop)
    && (p.closer == Closed ==> p.consumer == Exited)
    && (p.consumer == Rechecking ==> p.queue != [] || p.stop)
    && (p.consumer == Draining ==> p.queue != [])
  }

  lemma InitialInv(file: seq<Byte>)
    ensures Inv(Opened(file)) && Inv(Dormant(file))
  {
  }

  lemma StepKeepsInv(p: Proxy, a: Action)
    requires Inv(p) && Enabled(p, a)
    ensures Inv(Apply(p, a))
  {
  }

  /** File bytes followed by the queue. */
  function Content(p: Proxy): seq<Byte> {
    p.file + p.queue
  }

  /** The byte an action accepts, if any. */
  function Accepted(p: Proxy, a: Action): seq<Byte>
    requires Enabled(p, a)
  {
    if a == WriterPush then [p.writer.rest[0]] else []
  }

  /** Draining moves bytes from the queue to the file and loses none; only a
      push makes the content longer. */
  lemma StepKeepsContent(p: Proxy, a: Action)
    requires Enabled(p, a)
    ensures Content(Apply(p, a)) == Content(p) + Accepted(p, a)
  {
    if a == WriterPush {
      assert p.file + (p.queue + [p.writer.rest[0]]) == p.file + p.queue + [p.writer.rest[0]];
    }
  }

  /** The consumer leaves its loop only when told to stop and with an empty queue:
      the file then holds everything accepted. */
  lemma ExitsEmpty(p: Proxy, a: Action)
    requires Enabled(p, a) && p.consumer != Exited && Apply(p, a).consumer == Exited
    ensures p.stop && p.queue == [] && Apply(p, a).file == Content(Apply(p, a))
  {
  }

  // ---------------------------------------------------------------- whole runs

  /** The actions can be taken in this order from p. */
  predicate Run(p: Proxy, acts: seq<Action>)
    decreases |acts|
  {
    |acts| > 0 ==> Enabled(p, acts[0]) && Run(Apply(p, acts[0]), acts[1..])
  }

  function After(p: Proxy, acts: seq<Action>): Proxy
    requires Run(p, acts)
    decreases |acts|
  {
    if |acts| == 0 then p else After(Apply(p, acts[0]), acts[1..])
  }

  /** All bytes pushed in a run, in the order of the pushes. */
  function AllAccepted(p: Proxy, acts: seq<Action>): seq<Byte>
    requires Run(p, acts)
    decreases |acts|
  {
    if |acts| == 0 then [] else Accepted(p, acts[0]) + AllAccepted(Apply(p, acts[0]), acts[1..])
  }

  /** In every interleaving file and queue together hold what the file held at
      first and then every accepted byte, once and in lock order; no wakeup is
      lost in any state on the way. */
  lemma {:induction false} RunConserves(p: Proxy, acts: seq<Action>)
    requires Inv(p) && Run(p, acts)
    ensures Inv(After(p, acts))
    ensures Content(After(p, acts)) == Content(p) + AllAccepted(p, acts)
    decreases |acts|
  {
    if |acts| > 0 {
      hide Enabled, Apply, Inv, Accepted;
      StepKeepsInv(p, acts[0]);
      StepKeepsContent(p, acts[0]);
      RunConserves(Apply(p, acts[0]), acts[1..]);
    }
  }

  // ---------------------------------------------------------------- progress

  /** The next action of the consumer. */
  function ConsumerNext(c: Consumer): Action {
    match c
    case AtTop => ConsumerLock
    case Checking => ConsumerCheck
    case Testing => ConsumerTest
    case Sleeping => ConsumerWake
    case Woken => ConsumerRelock
    case Rechecking => ConsumerRecheck
    case Draining => ConsumerDrain
    case Syncing => ConsumerSync
    case Exited => ConsumerLock
  }

  /** The next action of a thread that owns the mutex. */
  function OwnerNext(p: Proxy): Action
    requires p.owner != Free
  {
    match p.owner
    case ByConsumer => ConsumerNext(p.consumer)
    case ByWriter =>
      if p.writer == Notified then WriterUnlock
      else if p.writer == Pushing([]) then WriterNotify else WriterPush
    case ByCloser =>
      if p.closer == Locked then CloserSetStop
      else if p.closer == StopSet then CloserNotify else CloserUnlock
    case Free => ConsumerLock
  }

  /** No reachable state is stuck with work to do: an owner of the mutex can
      always go on, and with the mutex free either the consumer can, or it has
      exited, or it sleeps with nothing queued and no stop request. */
  lemma NeverStuck(p: Proxy)
    requires Inv(p)
    ensures p.owner != Free ==> Enabled(p, OwnerNext(p))
    ensures p.owner == Free ==>
      || p.consumer == Exited
      || (p.consumer == Sleeping && p.queue == [] && !p.stop)
      || (p.consumer != Sleeping && Enabled(p, ConsumerNext(p.consumer)))
  {
  }

  function Rank(p: Proxy): nat {
    (if p.queue == [] then 0 else 10) +
    match p.consumer
    case Exited => 0
    case Rechecking => 2
    case Testing => 3
    case Checking => 4
    case AtTop => 5
    case Syncing => 6
    case Draining => 1
    case Woken => 4
    case Sleeping => 5
  }

  /** The consumer's own moves after a stop request, with nobody else inside. */
  function Shutdown(p: Proxy): (acts: seq<Action>)
    requires Inv(p) && p.stop && (p.owner == Free || p.owner == ByConsumer)
    decreases Rank(p)
  {
    if p.consumer == Exited then []
    else
      StepKeepsInv(p, ConsumerNext(p.consumer));
      [ConsumerNext(p.consumer)] + Shutdown(Apply(p, ConsumerNext(p.consumer)))
  }

  /** Once stop is set and no producer is inside, the consumer on its own drains the
      queue to the file and exits. */
  lemma {:induction false} ShutdownDrains(p: Proxy)
    requires Inv(p) && p.stop && (p.owner == Free || p.owner == ByConsumer)
    requires p.consumer == Exited ==> p.queue == []
    ensures Run(p, Shutdown(p))
    ensures After(p, Shutdown(p)) == p.(owner := Free, consumer := Exited, queue := [], file := Content(p))
    decreases Rank(p)
  {
    if p.consumer == Exited {
      assert Content(p) == p.file;
    } else {
      var a := ConsumerNext(p.consumer);
      StepKeepsInv(p, a);
      StepKeepsContent(p, a);
      ShutdownDrains(Apply(p, a));
      assert Shutdown(p)[1..] == Shutdown(Apply(p, a));
    }
  }

  function ConsumerSteps(acts: seq<Action>): nat {
    if |acts| == 0 then 0 else (if IsConsumer(acts[0]) then 1 else 0) + ConsumerSteps(acts[1..])
  }

  lemma ShutdownStep(p: Proxy, a: Action)
    requires Inv(p) && Enabled(p, a) && p.stop && p.writer == Outside && !a.WriterLock?
    ensures var q := Apply(p, a);
      q.stop && q.writer == Outside && Content(q) == Content(p)
      && Rank(q) + (if IsConsumer(a) then 1 else 0) <= Rank(p)
      && (q.consumer == Exited ==> p.consumer == Exited || q.queue == [])
      && (p.consumer == Exited ==> q.consumer == Exited && q.queue == p.queue)
  {
    StepKeepsContent(p, a);
  }

  /** close() always finishes its join: in every run after the stop request in which no
      producer gets in, the consumer takes at most Rank steps; until it has exited it is
      never stuck, and then everything accepted is in the file. */
  lemma {:induction false} ShutdownBounded(p: Proxy, acts: seq<Action>)
    requires Inv(p) && p.stop && p.writer == Outside && Run(p, acts)
    requires forall i :: 0 <= i < |acts| ==> !acts[i].WriterLock?
    requires p.consumer == Exited ==> p.queue == []
    ensures var q := After(p, acts);
      && ConsumerSteps(acts) + Rank(q) <= Rank(p)
      && (q.consumer == Exited ==> q.file == Content(p))
      && (q.consumer != Exited && q.owner != ByCloser ==>
            q.consumer != Sleeping && Enabled(q, ConsumerNext(q.consumer)))
    decreases |acts|
  {
    if |acts| > 0 {
      hide Enabled, Apply, Inv, Content, Rank, IsConsumer;
      StepKeepsInv(p, acts[0]);
      ShutdownStep(p, acts[0]);
      ShutdownBounded(Apply(p, acts[0]), acts[1..]);
    } else {
      if p.queue == [] { assert Content(p) == p.file; }
      NeverStuck(p);
    }
  }

  // ---------------------------------------------------------------- for the log that owns proxies

  predicate IsConsumer(a: Action) {
    a.ConsumerLock? || a.ConsumerCheck? || a.ConsumerTest? || a.ConsumerWake? || a.ConsumerRelock?
    || a.ConsumerRecheck? || a.ConsumerDrain? || a.ConsumerSync?
  }

  predicate IsWriter(a: Action) {
    a.WriterLock? || a.WriterPush? || a.WriterNotify? || a.WriterUnlock?
  }

  predicate IsCloser(a: Action) {
    !IsConsumer(a) && !IsWriter(a)
  }

  /** A proxy that nobody wrote to after it was told to stop. */
  predicate Orderly(p: Proxy) {
    Inv(p) && (p.consumer == Exited ==> p.queue == [] && p.writer == Outside)
  }

  lemma StepKeepsOrderly(p: Proxy, a: Action)
    requires Orderly(p) && Enabled(p, a)
    requires IsWriter(a) ==> p.closer == NotClosing
    ensures Orderly(Apply(p, a))
  {
  }

  /** The consumer exits with no writer inside, and then only a lock lets one in. */
  lemma ExitsAlone(p: Proxy, a: Action)
    requires Inv(p) && Enabled(p, a) && (p.consumer == Exited ==> p.writer == Outside)
    ensures p.consumer == Exited ==> a != WriterPush && Apply(p, a).consumer == Exited
    ensures Apply(p, a).consumer == Exited && Apply(p, a).writer != Outside ==>
      p.consumer == Exited && a.WriterLock?
  {
  }

  /** The queue is empty when the consumer exits, and then only pushes change it. */
  lemma QueueAtExit(p: Proxy, a: Action)
    requires Inv(p) && Enabled(p, a)
    ensures p.consumer == Exited ==>
      Apply(p, a).consumer == Exited && Apply(p, a).queue == p.queue + Accepted(p, a)
    ensures p.consumer != Exited && Apply(p, a).consumer == Exited ==> Apply(p, a).queue == []
  {
  }

  /** What an action of one thread leaves alone in the others. */
  lemma StepFrame(p: Proxy, a: Action)
    requires Enabled(p, a)
    ensures !IsWriter(a) ==> Apply(p, a).writer == p.writer
    ensures !IsCloser(a) ==> Apply(p, a).closer == p.closer
    ensures IsCloser(a) ==> p.closer != Closed && Apply(p, a).closer != NotClosing
    ensures Apply(p, a).writer != Outside <==> a.WriterLock? || (p.writer != Outside && a != WriterUnlock)
  {
  }
}
