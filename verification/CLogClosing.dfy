/** What close() leaves behind when writes overlap it. The proxy's consumer exits while
    clients may still be on their way to its queue: what they push then stays there. */
module CLogClosing {
  import P = FileWriteProxy
  import opened CLog
  import opened CLogConservation

  /** The consumer of the current proxy has exited. */
  predicate Gone(l: Log) {
    l.current in l.proxies && l.proxies[l.current].consumer == P.Exited
  }

  /** The byte a step pushes into a queue that nobody reads any more. */
  function Late(l: Log, a: Action): seq<Byte>
    requires Enabled(l, a)
  {
    if Gone(l) then Pushed(l, a) else []
  }

  function LateBytes(l: Log, acts: seq<Action>): seq<Byte>
    requires Run(l, acts)
    decreases |acts|
  {
    if |acts| == 0 then [] else Late(l, acts[0]) + LateBytes(Apply(l, acts[0]), acts[1..])
  }

  /** The queue of the current proxy holds exactly the late bytes once its consumer has
      exited, and there are none before. */
  predicate Tail(l: Log, late: seq<Byte>) {
    if Gone(l) then l.proxies[l.current].queue == late else late == []
  }

  lemma NotGoneYet(l: Log)
    requires Inv(l) && !EndOfLog(l)
    ensures !Gone(l)
  {
    assert RoleOk(l, l.current);
  }

  lemma CurrentThere(l: Log)
    requires Inv(l)
    ensures l.current in l.proxies && P.Inv(l.proxies[l.current])
  {
    assert RoleOk(l, l.current);
  }

  predicate IsProxyMove(a: Action) {
    a.ConsumerMove? || a.ClientProxy? || a.RotatorClose? || a.CloserProxy?
  }

  /** The proxy and the proxy's action of such a step. */
  function Target(l: Log, a: Action): Inode
    requires IsProxyMove(a) && (a.RotatorClose? ==> l.rotator.Closing?)
  {
    match a
    case ConsumerMove(i, _) => i
    case RotatorClose(_) => l.rotator.prev
    case _ => l.current
  }

  function Inner(a: Action): P.Action
    requires IsProxyMove(a)
  {
    match a
    case ConsumerMove(_, pa) => pa
    case ClientProxy(pa) => pa
    case RotatorClose(pa) => pa
    case CloserProxy(pa) => pa
  }

  /** l' is l with one step of the proxy of file i. */
  predicate Moved(l: Log, l': Log, i: Inode, pa: P.Action) {
    && i in l.proxies && P.Enabled(l.proxies[i], pa)
    && l'.current == l.current && l'.proxies == l.proxies[i := P.Apply(l.proxies[i], pa)]
  }

  lemma ProxyMoves(l: Log, a: Action)
    requires Enabled(l, a) && IsProxyMove(a)
    ensures a.RotatorClose? ==> l.rotator.Closing?
    ensures Moved(l, Apply(l, a), Target(l, a), Inner(a))
    ensures Pushed(l, a) == P.Accepted(l.proxies[Target(l, a)], Inner(a))
    ensures P.IsWriter(Inner(a)) ==> a.ClientProxy?
    ensures !a.ClientProxy? ==> Apply(l, a).client == l.client
  {
    hide P.Enabled, P.Apply;
  }

  lemma ProxyTail(l: Log, l': Log, i: Inode, pa: P.Action, late: seq<Byte>)
    requires l.current in l.proxies && P.Inv(l.proxies[l.current]) && Tail(l, late) && Moved(l, l', i, pa)
    ensures Tail(l', late + (if i == l.current && Gone(l) then P.Accepted(l.proxies[i], pa) else []))
  {
    hide P.Enabled, P.Apply, P.Inv, P.Accepted;
    if i == l.current { P.QueueAtExit(l.proxies[i], pa); }
  }

  lemma StepTail(l: Log, a: Action, late: seq<Byte>)
    requires Inv(l) && Enabled(l, a) && Tail(l, late)
    ensures Tail(Apply(l, a), late + Late(l, a))
  {
    CurrentThere(l);
    hide Inv, Enabled, Apply, Tail, P.Enabled, P.Apply, P.Inv, Pushed;
    if IsProxyMove(a) {
      ProxyMoves(l, a);
      ProxyTail(l, Apply(l, a), Target(l, a), Inner(a), late);
    } else {
      OtherTail(l, a, late);
    }
  }

  lemma OtherTail(l: Log, a: Action, late: seq<Byte>)
    requires Inv(l) && Enabled(l, a) && Tail(l, late) && !IsProxyMove(a)
    ensures Tail(Apply(l, a), late + Late(l, a))
  {
    hide Inv, Enabled, Apply;
    if a.RotatorMove? && l.rotator == Reopen {
      Reopens(l, a);
    } else {
      OtherFrame(l, a);
    }
    assert late + [] == late;
  }

  /** No rotation starts a new file once the proxy's consumer can exit. */
  lemma Reopens(l: Log, a: Action)
    requires Inv(l) && Enabled(l, a) && a.RotatorMove? && l.rotator == Reopen
    ensures !Gone(l) && !Gone(Apply(l, a))
  {
    NotGoneYet(l);
    hide Inv;
  }

  /** Steps outside the proxies leave them and the choice of the current one alone. */
  lemma OtherFrame(l: Log, a: Action)
    requires Enabled(l, a) && !IsProxyMove(a) && !(a.RotatorMove? && l.rotator == Reopen)
    ensures Apply(l, a).proxies == l.proxies && Apply(l, a).current == l.current
  {
    if a.RotatorMove? {
      RotatorFrame(l, a.big);
      hide RotatorStep;
    }
  }

  lemma {:induction false} RunTail(l: Log, acts: seq<Action>, late: seq<Byte>)
    requires Inv(l) && Run(l, acts) && Tail(l, late)
    ensures Inv(After(l, acts)) && Tail(After(l, acts), late + LateBytes(l, acts))
    decreases |acts|
  {
    hide Inv, Enabled, Apply, Tail, Late;
    if |acts| > 0 {
      StepKeepsInv(l, acts[0]);
      StepTail(l, acts[0], late);
      RunTail(Apply(l, acts[0]), acts[1..], late + Late(l, acts[0]));
      Associate(late, Late(l, acts[0]), LateBytes(Apply(l, acts[0]), acts[1..]));
    } else {
      assert late + [] == late;
    }
  }

  // ---------------------------------------------------------------- the files after close()

  /** Once close() has returned, every consumer has exited, and only the current proxy
      can have a queue left. */
  lemma ClosedMeansDrained(l: Log, i: Inode)
    requires Inv(l) && l.closer == Closed && i in l.proxies
    ensures l.proxies[i].consumer == P.Exited
    ensures i != l.current ==> l.proxies[i].queue == []
  {
    assert RoleOk(l, i);
  }

  lemma {:induction false} DrainedText(l: Log, order: seq<Inode>)
    requires Inv(l) && l.closer == Closed && l.current !in order
    ensures Read(order, l.proxies) == ReadFiles(order, l.proxies)
  {
    hide Inv;
    if |order| > 0 {
      DrainedText(l, order[1..]);
      if order[0] in l.proxies {
        ClosedMeansDrained(l, order[0]);
        assert P.Content(l.proxies[order[0]]) == l.proxies[order[0]].file;
      }
    }
  }

  lemma {:induction false} ReadFilesConcat(a: seq<Inode>, b: seq<Inode>, m: map<Inode, P.Proxy>)
    ensures ReadFiles(a + b, m) == ReadFiles(a, m) + ReadFiles(b, m)
  {
    hide FileOf;
    if |a| == 0 {
      assert a + b == b;
    } else {
      ReadFilesConcat(a[1..], b, m);
      assert (a + b)[1..] == a[1..] + b;
      Associate(FileOf(m, a[0]), ReadFiles(a[1..], m), ReadFiles(b, m));
    }
  }

  lemma ReadFilesOne(i: Inode, m: map<Inode, P.Proxy>)
    requires i in m
    ensures ReadFiles([i], m) == m[i].file
  {
    assert [i][1..] == [];
  }

  lemma ClosedNames(l: Log)
    requires Inv(l) && l.closer == Closed
    ensures Files(l.names, l.limit) == Suffixes(l.names, l.limit) + [l.current]
    ensures Current in l.names && l.names[Current] == l.current
  {
  }

  /** The text of a closed log is that of its files and then the queue left over. */
  lemma ClosedText(l: Log)
    requires Inv(l) && l.closer == Closed && l.current in l.proxies
    ensures LogText(l) == ReadFiles(Files(l.names, l.limit), l.proxies) + l.proxies[l.current].queue
  {
    ClosedNames(l);
    CurrentNotSuffixed(l);
    hide Inv, Files, Suffixes;
    var front := Suffixes(l.names, l.limit);
    DrainedText(l, front);
    ReadConcat(front, [l.current], l.proxies);
    ReadOne(l.current, l.proxies);
    ReadFilesConcat(front, [l.current], l.proxies);
    ReadFilesOne(l.current, l.proxies);
    Associate(ReadFiles(front, l.proxies), l.proxies[l.current].file, l.proxies[l.current].queue);
  }

  /** After close() the files, and behind them the late bytes, are the old log, every
      message and what has been pushed of the one being written, once and in order. */
  lemma ClosedLog(l: Log, acts: seq<Action>)
    requires Initial(l) && Run(l, acts) && After(l, acts).closer == Closed
    ensures var l' := After(l, acts);
      ReadFiles(Files(l'.names, l'.limit), l'.proxies) + LateBytes(l, acts)
      == LogText(l) + Flatten(l'.messages) + InProgress(l')
  {
    hide Inv, Initial, LogText, Flatten, InProgress, Files, Tail;
    var l' := After(l, acts);
    InitialInv(l);
    LogConserved(l, acts);
    InitialTail(l);
    RunTail(l, acts, []);
    assert [] + LateBytes(l, acts) == LateBytes(l, acts);
    ClosedEnds(l', LateBytes(l, acts));
  }

  lemma InitialTail(l: Log)
    requires Initial(l)
    ensures Tail(l, [])
  {
    InitialInv(l);
    NotGoneYet(l);
  }

  lemma ClosedEnds(l: Log, late: seq<Byte>)
    requires Inv(l) && l.closer == Closed && Tail(l, late)
    ensures ReadFiles(Files(l.names, l.limit), l.proxies) + late == LogText(l)
  {
    CurrentThere(l);
    ClosedMeansDrained(l, l.current);
    ClosedText(l);
  }

  // ---------------------------------------------------------------- when nothing is lost

  /** Every write gets the proxy's mutex before the proxy's consumer has exited. */
  predicate Timely(l: Log, acts: seq<Action>)
    requires Run(l, acts)
    decreases |acts|
  {
    |acts| > 0 ==>
      && !(Gone(l) && acts[0].ClientProxy? && acts[0].a.WriterLock?)
      && Timely(Apply(l, acts[0]), acts[1..])
  }

  /** No client is inside a proxy whose consumer has exited. */
  predicate NoneInside(l: Log) {
    Gone(l) ==> l.proxies[l.current].writer == P.Outside
  }

  lemma TimelyStep(l: Log, a: Action)
    requires Inv(l) && Enabled(l, a) && NoneInside(l)
    requires !(Gone(l) && a.ClientProxy? && a.a.WriterLock?)
    ensures NoneInside(Apply(l, a)) && Late(l, a) == []
  {
    hide Inv, Enabled, Apply, P.Enabled, P.Apply, P.Inv;
    CurrentThere(l);
    if IsProxyMove(a) {
      ProxyMoves(l, a);
      ProxyTimely(l, Apply(l, a), Target(l, a), Inner(a));
    } else if a.RotatorMove? && l.rotator == Reopen {
      Reopens(l, a);
    } else {
      OtherFrame(l, a);
    }
  }

  lemma ProxyTimely(l: Log, l': Log, i: Inode, pa: P.Action)
    requires l.current in l.proxies && P.Inv(l.proxies[l.current]) && NoneInside(l) && Moved(l, l', i, pa)
    requires !(i == l.current && Gone(l) && pa.WriterLock?)
    ensures NoneInside(l')
    ensures i == l.current && Gone(l) ==> pa != P.WriterPush
  {
    hide P.Enabled, P.Apply, P.Inv;
    if i == l.current { P.ExitsAlone(l.proxies[i], pa); }
  }

  lemma {:induction false} TimelyLosesNothing(l: Log, acts: seq<Action>)
    requires Inv(l) && Run(l, acts) && NoneInside(l) && Timely(l, acts)
    ensures LateBytes(l, acts) == []
    decreases |acts|
  {
    hide Inv, Enabled, Apply, NoneInside, Late;
    if |acts| > 0 {
      StepKeepsInv(l, acts[0]);
      TimelyStep(l, acts[0]);
      TimelyLosesNothing(Apply(l, acts[0]), acts[1..]);
    }
  }

  /** A client has bytes to push into a proxy whose consumer has exited. */
  predicate Stranded(l: Log) {
    Gone(l) && l.client.Writing? && l.proxies[l.current].writer.Pushing? && l.proxies[l.current].writer.rest != []
  }

  lemma StrandedStep(l: Log, a: Action)
    requires Inv(l) && Enabled(l, a) && Stranded(l)
    ensures Stranded(Apply(l, a)) || Late(l, a) != []
  {
    hide Inv, Enabled, Apply, P.Enabled, P.Apply, P.Inv;
    CurrentThere(l);
    if a.ClientProxy? {
      StrandedPushes(l, a.a);
    } else if IsProxyMove(a) {
      ProxyMoves(l, a);
      StrandedStays(l, Apply(l, a), Target(l, a), Inner(a));
    } else if a.RotatorMove? && l.rotator == Reopen {
      Reopens(l, a);
    } else {
      OtherFrame(l, a);
      StrandedClient(l, a);
    }
  }

  lemma StrandedPushes(l: Log, pa: P.Action)
    requires Enabled(l, ClientProxy(pa)) && Stranded(l)
    ensures Late(l, ClientProxy(pa)) != []
  {
  }

  lemma StrandedClient(l: Log, a: Action)
    requires Enabled(l, a) && Stranded(l) && !IsProxyMove(a) && !(a.RotatorMove? && l.rotator == Reopen)
    ensures Apply(l, a).client == l.client
  {
    if a.RotatorMove? {
      RotatorFrame(l, a.big);
      hide RotatorStep;
    }
  }

  lemma StrandedStays(l: Log, l': Log, i: Inode, pa: P.Action)
    requires l.current in l.proxies && P.Inv(l.proxies[l.current]) && Stranded(l) && Moved(l, l', i, pa)
    requires !P.IsWriter(pa) && l'.client == l.client
    ensures Stranded(l')
  {
    hide P.Enabled, P.Apply, P.Inv;
    if i == l.current {
      P.QueueAtExit(l.proxies[i], pa);
      P.StepFrame(l.proxies[i], pa);
    }
  }

  lemma {:induction false} StrandedLoses(l: Log, acts: seq<Action>)
    requires Inv(l) && Run(l, acts) && Stranded(l) && After(l, acts).client == Outside
    ensures LateBytes(l, acts) != []
    decreases |acts|
  {
    hide Inv, Enabled, Apply;
    if |acts| > 0 {
      hide Stranded, Late;
      StepKeepsInv(l, acts[0]);
      StrandedStep(l, acts[0]);
      if Stranded(Apply(l, acts[0])) { StrandedLoses(Apply(l, acts[0]), acts[1..]); }
    }
  }

  /** Messages are not empty. */
  predicate SomeMessage(l: Log) {
    (l.client.Holding? || l.client.Writing?) ==> l.client.msg != []
  }

  lemma LateLockStrands(l: Log, a: Action)
    requires Inv(l) && Enabled(l, a) && SomeMessage(l)
    ensures SomeMessage(Apply(l, a))
    ensures Gone(l) && a.ClientProxy? && a.a.WriterLock? ==> Stranded(Apply(l, a))
  {
    hide Inv;
  }

  lemma {:induction false} LateLockLoses(l: Log, acts: seq<Action>)
    requires Inv(l) && Run(l, acts) && SomeMessage(l) && !Timely(l, acts) && After(l, acts).client == Outside
    ensures LateBytes(l, acts) != []
    decreases |acts|
  {
    hide Inv, Enabled, Apply, SomeMessage, Stranded, Late, Gone;
    if |acts| > 0 {
      var l' := Apply(l, acts[0]);
      StepKeepsInv(l, acts[0]);
      LateLockStrands(l, acts[0]);
      if Stranded(l') { StrandedLoses(l', acts[1..]); }
      else { LateLockLoses(l', acts[1..]); }
    }
  }

  /** The exact limit of close(): with no write under way, the files hold the old log
      and every message, once and in order, if and only if every write got the proxy's
      mutex before the proxy's consumer had exited. */
  lemma ClosedLogIff(l: Log, acts: seq<Action>)
    requires Initial(l) && Run(l, acts)
    requires After(l, acts).closer == Closed && After(l, acts).client == Outside
    ensures var l' := After(l, acts);
      ReadFiles(Files(l'.names, l'.limit), l'.proxies) == LogText(l) + Flatten(l'.messages) <==> Timely(l, acts)
  {
    var l' := After(l, acts);
    InitialInv(l);
    InitialTail(l);
    ClosedLog(l, acts);
    NotGoneYet(l);
    assert InProgress(l') == [];
    if Timely(l, acts) { TimelyLosesNothing(l, acts); } else { LateLockLoses(l, acts); }
    Cancel(ReadFiles(Files(l'.names, l'.limit), l'.proxies), LateBytes(l, acts), LogText(l) + Flatten(l'.messages));
  }

  lemma Cancel(a: seq<Byte>, b: seq<Byte>, c: seq<Byte>)
    requires a + b == c + []
    ensures a == c <==> b == []
  {
    assert |a| + |b| == |c|;
    assert c + [] == c;
    if b == [] { assert a + b == a; }
  }

  // ---------------------------------------------------------------- a run that loses a message

  /** A log just opened on a new file. */
  function NewLog(): Log {
    Log(map[Current := 0], map[0 := P.Opened([])], 1, 0, 0, Free, Top, Outside, Open, false, false, [])
  }

  /** The stop request of close(), and the rotator's return. */
  function StopPart(): seq<Action> {
    [CloserMove] + [CloserMove] + [CloserMove] + [CloserMove] + [RotatorMove(false)] + [RotatorMove(false)] + [CloserMove]
  }

  /** The stop request of the proxy, and the exit of its consumer. */
  function ProxyPart(): seq<Action> {
    [CloserProxy(P.CloserLock)] + [CloserProxy(P.CloserSetStop)] + [CloserProxy(P.CloserNotify)]
    + [CloserProxy(P.CloserUnlock)] + [ConsumerMove(0, P.ConsumerLock)] + [ConsumerMove(0, P.ConsumerCheck)]
  }

  /** A client that tested isOpen() before gets its message into the queue all the same. */
  function LatePart(): seq<Action> {
    [ClientLock([0])] + [ClientProxy(P.WriterLock([0]))] + [ClientProxy(P.WriterPush)] + [ClientProxy(P.WriterNotify)]
    + [ClientProxy(P.WriterUnlock)] + [ClientNotify] + [ClientUnlock]
  }

  function LosingRun(): seq<Action> {
    StopPart() + ProxyPart() + LatePart() + [CloserProxy(P.CloserJoin), CloserMove]
  }

  /** The new log when close() has come to its proxy, which is p by then. */
  function Ending(p: P.Proxy): Log {
    NewLog().(closer := ClosingCurrent, rotator := Done, stop := true, proxies := map[0 := p])
  }

  /** The proxy when its consumer has exited and the given bytes were pushed too late. */
  function Left(queue: seq<Byte>): P.Proxy {
    P.Proxy(P.Free, P.Exited, P.Outside, P.Joining, queue, true, [])
  }

  /** acts leads from l to l'. */
  predicate Leads(l: Log, acts: seq<Action>, l': Log) {
    Run(l, acts) && After(l, acts) == l'
  }

  lemma Step(l: Log, a: Action)
    requires Enabled(l, a)
    ensures Leads(l, [a], Apply(l, a))
  {
    hide Enabled, Apply;
    assert [a][1..] == [];
    assert Run(Apply(l, a), []) && After(Apply(l, a), []) == Apply(l, a);
  }

  lemma {:induction false} Then(l: Log, a: seq<Action>, m: Log, b: seq<Action>, n: Log)
    requires Leads(l, a, m) && Leads(m, b, n)
    ensures Leads(l, a + b, n)
    decreases |a|
  {
    hide Enabled, Apply;
    if |a| == 0 {
      assert a + b == b;
    } else {
      Then(Apply(l, a[0]), a[1..], m, b, n);
      assert (a + b)[1..] == a[1..] + b;
    }
  }

  /** One step more. */
  lemma Extend(l: Log, acts: seq<Action>, m: Log, a: Action, n: Log)
    requires Leads(l, acts, m) && Enabled(m, a) && Apply(m, a) == n
    ensures Leads(l, acts + [a], n)
  {
    hide Enabled, Apply, Leads;
    Step(m, a);
    Then(l, acts, m, [a], n);
  }

  lemma StopPartRuns()
    ensures Leads(NewLog(), StopPart(), Ending(P.Opened([])))
  {
    hide Leads;
    var l := NewLog();
    var locked := l.(owner := ByCloser, closer := Locked);
    var unlocked := l.(closer := Joining, stop := true);
    var done := unlocked.(rotator := Done);
    Step(l, CloserMove);
    var acts := [CloserMove];
    Extend(l, acts, locked, CloserMove, locked.(stop := true, closer := StopSet));
    Extend(l, acts + [CloserMove], locked.(stop := true, closer := StopSet), CloserMove,
           locked.(stop := true, closer := StopNotified));
    acts := acts + [CloserMove] + [CloserMove];
    Extend(l, acts, locked.(stop := true, closer := StopNotified), CloserMove, unlocked);
    Extend(l, acts + [CloserMove], unlocked, RotatorMove(false), unlocked.(owner := ByRotator, rotator := CheckStop));
    acts := acts + [CloserMove] + [RotatorMove(false)];
    Extend(l, acts, unlocked.(owner := ByRotator, rotator := CheckStop), RotatorMove(false), done);
    Extend(l, acts + [RotatorMove(false)], done, CloserMove, done.(closer := ClosingCurrent));
  }

  /** A step of the closer or the consumer inside the proxy. */
  lemma EndingStep(acts: seq<Action>, p: P.Proxy, a: P.Action, q: P.Proxy)
    requires Leads(Ending(P.Opened([])), acts, Ending(p)) && P.Enabled(p, a) && P.Apply(p, a) == q
    ensures P.IsCloser(a) ==> Leads(Ending(P.Opened([])), acts + [CloserProxy(a)], Ending(q))
    ensures P.IsConsumer(a) ==> Leads(Ending(P.Opened([])), acts + [ConsumerMove(0, a)], Ending(q))
  {
    hide Leads, P.Enabled, P.Apply, P.IsCloser, P.IsConsumer;
    assert Ending(p).proxies[0 := q] == Ending(q).proxies;
    var l := Ending(P.Opened([]));
    if P.IsCloser(a) { Extend(l, acts, Ending(p), CloserProxy(a), Ending(q)); }
    if P.IsConsumer(a) { Extend(l, acts, Ending(p), ConsumerMove(0, a), Ending(q)); }
  }

  lemma Nothing(l: Log)
    ensures Leads(l, [], l)
  {
  }

  lemma ProxyPartRuns()
    ensures Leads(Ending(P.Opened([])), ProxyPart(), Ending(Left([])))
  {
    hide Leads, Ending;
    var p := P.Opened([]);
    var p1 := p.(owner := P.ByCloser, closer := P.Locked);
    var p2 := p1.(closer := P.StopSet, stop := true);
    var p3 := p2.(closer := P.StopNotified);
    var p4 := p3.(owner := P.Free, closer := P.Joining);
    var p5 := p4.(owner := P.ByConsumer, consumer := P.Checking);
    Nothing(Ending(p));
    EndingStep([], p, P.CloserLock, p1);
    var acts := [CloserProxy(P.CloserLock)];
    assert [] + acts == acts;
    EndingStep(acts, p1, P.CloserSetStop, p2);
    acts := acts + [CloserProxy(P.CloserSetStop)];
    EndingStep(acts, p2, P.CloserNotify, p3);
    acts := acts + [CloserProxy(P.CloserNotify)];
    EndingStep(acts, p3, P.CloserUnlock, p4);
    acts := acts + [CloserProxy(P.CloserUnlock)];
    EndingStep(acts, p4, P.ConsumerLock, p5);
    acts := acts + [ConsumerMove(0, P.ConsumerLock)];
    EndingStep(acts, p5, P.ConsumerCheck, Left([]));
  }

  /** The log while the late client is writing into the proxy p. */
  function Inside(p: P.Proxy, messages: seq<seq<Byte>>): Log {
    Ending(p).(owner := ByClient, client := Writing([0]), messages := messages)
  }

  lemma LateEnter(acts: seq<Action>)
    requires Leads(Ending(Left([])), acts, Ending(Left([])))
    ensures Leads(Ending(Left([])), acts + [ClientLock([0])] + [ClientProxy(P.WriterLock([0]))],
                  Inside(Left([]).(owner := P.ByWriter, writer := P.Pushing([0])), []))
  {
    hide Leads;
    var l, p := Ending(Left([])), Left([]).(owner := P.ByWriter, writer := P.Pushing([0]));
    var m := l.(owner := ByClient, client := Holding([0]));
    Extend(l, acts, l, ClientLock([0]), m);
    assert m.proxies[0 := p] == Ending(p).proxies;
    Extend(l, acts + [ClientLock([0])], m, ClientProxy(P.WriterLock([0])), Inside(p, []));
  }

  /** A step of the late client inside the proxy. */
  lemma InsideStep(acts: seq<Action>, p: P.Proxy, a: P.Action, q: P.Proxy, messages: seq<seq<Byte>>, more: seq<seq<Byte>>)
    requires Leads(Ending(Left([])), acts, Inside(p, messages)) && P.Enabled(p, a) && P.Apply(p, a) == q
    requires a.WriterPush? || a.WriterNotify?
    requires more == if a.WriterNotify? then messages + [[0]] else messages
    ensures Leads(Ending(Left([])), acts + [ClientProxy(a)], Inside(q, more))
  {
    hide Leads, P.Enabled, P.Apply;
    assert Ending(p).proxies[0 := q] == Ending(q).proxies;
    Extend(Ending(Left([])), acts, Inside(p, messages), ClientProxy(a), Inside(q, more));
  }

  lemma LateUnlock(acts: seq<Action>, l: Log)
    requires Leads(l, acts, Inside(Left([0]).(owner := P.ByWriter, writer := P.Notified), [[0]]))
    ensures Leads(l, acts + [ClientProxy(P.WriterUnlock)],
                  Ending(Left([0])).(messages := [[0]], owner := ByClient, client := Written))
  {
    hide Leads;
    var p := Left([0]).(owner := P.ByWriter, writer := P.Notified);
    assert Ending(p).proxies[0 := Left([0])] == Ending(Left([0])).proxies;
    Extend(l, acts, Inside(p, [[0]]), ClientProxy(P.WriterUnlock),
           Ending(Left([0])).(messages := [[0]], owner := ByClient, client := Written));
  }

  lemma LateLeave(acts: seq<Action>, l: Log, m: Log)
    requires m.owner == ByClient && m.client == Written && !m.rotator.Sleeping?
    requires Leads(l, acts, m)
    ensures Leads(l, acts + [ClientNotify] + [ClientUnlock], m.(owner := Free, client := Outside))
  {
    hide Leads;
    Extend(l, acts, m, ClientNotify, m.(client := Notified));
    Extend(l, acts + [ClientNotify], m.(client := Notified), ClientUnlock, m.(owner := Free, client := Outside));
  }

  lemma LateEnds(acts: seq<Action>)
    requires Leads(Ending(Left([])), acts, Ending(Left([0])).(messages := [[0]], owner := ByClient, client := Written))
    ensures Leads(Ending(Left([])), acts + [ClientNotify] + [ClientUnlock], Ending(Left([0])).(messages := [[0]]))
  {
    hide Leads;
    var m := Ending(Left([0])).(messages := [[0]], owner := ByClient, client := Written);
    LateLeave(acts, Ending(Left([])), m);
    assert m.(owner := Free, client := Outside) == Ending(Left([0])).(messages := [[0]]);
  }

  lemma LatePartRuns()
    ensures Leads(Ending(Left([])), LatePart(), Ending(Left([0])).(messages := [[0]]))
  {
    hide Leads, Inside, Ending;
    var one: seq<Byte> := [0];
    assert one[1..] == [] && one[0] == 0;
    var p := Left([]).(owner := P.ByWriter, writer := P.Pushing([0]));
    var q := p.(writer := P.Pushing([]), queue := [0]);
    Nothing(Ending(Left([])));
    LateEnter([]);
    var acts := [ClientLock([0])] + [ClientProxy(P.WriterLock([0]))];
    assert [] + [ClientLock([0])] == [ClientLock([0])];
    InsideStep(acts, p, P.WriterPush, q, [], []);
    acts := acts + [ClientProxy(P.WriterPush)];
    assert [] + [one] == [one];
    InsideStep(acts, q, P.WriterNotify, q.(writer := P.Notified), [], [[0]]);
    acts := acts + [ClientProxy(P.WriterNotify)];
    LateUnlock(acts, Ending(Left([])));
    acts := acts + [ClientProxy(P.WriterUnlock)];
    LateEnds(acts);
  }

  /** The run is possible, close() returns, the message was accepted, and no file holds it. */
  lemma OverlappingWriteIsLost()
    ensures Initial(NewLog()) && Run(NewLog(), LosingRun())
    ensures var l := After(NewLog(), LosingRun());
      && l.closer == Closed && l.client == Outside && l.messages == [[0]]
      && ReadFiles(Files(l.names, l.limit), l.proxies) == []
  {
    LosingRunEnds();
    NothingOnDisk();
    NewLogInitial();
  }

  lemma NewLogInitial()
    ensures Initial(NewLog())
  {
  }

  /** The log after the run. */
  function Lost(): Log {
    Ending(Left([0]).(closer := P.Closed)).(messages := [[0]], closer := Closed)
  }

  lemma NothingOnDisk()
    ensures ReadFiles(Files(Lost().names, Lost().limit), Lost().proxies) == []
  {
    assert Files(Lost().names, Lost().limit) == [0];
    ReadFilesOne(0, Lost().proxies);
  }

  lemma LosingRunEnds()
    ensures Leads(NewLog(), LosingRun(), Lost())
  {
    var l, m := NewLog(), Ending(Left([0])).(messages := [[0]]);
    hide Leads;
    StopPartRuns();
    ProxyPartRuns();
    LatePartRuns();
    Then(l, StopPart(), Ending(P.Opened([])), ProxyPart(), Ending(Left([])));
    Then(l, StopPart() + ProxyPart(), Ending(Left([])), LatePart(), m);
    LastPart(m);
    hide StopPart, ProxyPart, LatePart, Enabled, Apply;
    Then(l, StopPart() + ProxyPart() + LatePart(), m, [CloserProxy(P.CloserJoin), CloserMove], Lost());
  }

  lemma LastPart(m: Log)
    requires m == Ending(Left([0])).(messages := [[0]])
    ensures Leads(m, [CloserProxy(P.CloserJoin), CloserMove],
                  Lost())
  {
    hide Leads;
    var n := Ending(Left([0]).(closer := P.Closed)).(messages := [[0]]);
    Step(m, CloserProxy(P.CloserJoin));
    assert Apply(m, CloserProxy(P.CloserJoin)) == n;
    Step(n, CloserMove);
    Then(m, [CloserProxy(P.CloserJoin)], n, [CloserMove], n.(closer := Closed));
    assert [CloserProxy(P.CloserJoin)] + [CloserMove] == [CloserProxy(P.CloserJoin), CloserMove];
  }

  // ---------------------------------------------------------------- a condition on close() alone

  /** In particular when no write has begun its lock on the proxy once close() closes it. */
  lemma QuietCloseKeepsAll(l: Log, acts: seq<Action>)
    requires Initial(l) && Run(l, acts) && BeforeClosing(l, acts)
    ensures Timely(l, acts)
  {
    InitialInv(l);
    QuietClose(l, acts);
  }

  /** Every write gets the proxy's mutex before close() turns to the proxy. */
  predicate BeforeClosing(l: Log, acts: seq<Action>)
    requires Run(l, acts)
    decreases |acts|
  {
    |acts| > 0 ==>
      && !(EndOfLog(l) && acts[0].ClientProxy? && acts[0].a.WriterLock?)
      && BeforeClosing(Apply(l, acts[0]), acts[1..])
  }

  lemma {:induction false} QuietClose(l: Log, acts: seq<Action>)
    requires Inv(l) && Run(l, acts) && BeforeClosing(l, acts)
    ensures Timely(l, acts)
    decreases |acts|
  {
    hide Inv, Enabled, Apply, Gone, EndOfLog;
    if |acts| > 0 {
      if !EndOfLog(l) { NotGoneYet(l); }
      StepKeepsInv(l, acts[0]);
      QuietClose(Apply(l, acts[0]), acts[1..]);
    }
  }

  // ---------------------------------------------------------------- close() gets its join

  /** The rotator's own steps to its return once the stop flag is set. */
  function StepsLeft(r: Rotator): nat {
    match r
    case Done => 0
    case CheckStop => 1
    case Test => 1
    case Top => 2
    case Woken => 2
    case Sleeping => 3
    case Closing(_) => 3
    case _ => 4
  }

  /** The stop flag is set and the rotator is between rotations. */
  predicate Stopping(l: Log) {
    l.stop && IsIdle(l.rotator) && !l.rotator.Leaving?
  }

  function RotatorMoves(acts: seq<Action>): nat {
    if |acts| == 0 then 0 else (if acts[0].RotatorMove? then 1 else 0) + RotatorMoves(acts[1..])
  }

  /** close() sets the flag while it holds the mutex, so no rotation is under way. */
  lemma StopFindsIdle(l: Log, a: Action)
    requires Inv(l) && Enabled(l, a) && !l.stop && Apply(l, a).stop
    ensures Stopping(Apply(l, a))
  {
    hide NamesOk, InodesOk, RolesOk, WritingOk;
  }

  lemma StoppingStep(l: Log, a: Action)
    requires Enabled(l, a) && Stopping(l)
    ensures Stopping(Apply(l, a))
    ensures StepsLeft(Apply(l, a).rotator) + (if a.RotatorMove? then 1 else 0) <= StepsLeft(l.rotator)
  {
  }

  lemma StoppingGoes(l: Log)
    requires Inv(l) && Stopping(l)
    ensures StepsLeft(l.rotator) <= 3
    ensures l.owner == Free ==> l.rotator != Sleeping
    ensures l.owner == Free && l.rotator != Done && !l.rotator.Closing? ==> RotatorEnabled(l)
  {
    hide NamesOk, InodesOk, RolesOk, WritingOk;
  }

  /** After the stop request the rotator takes at most three more steps of its own in any
      run. When the mutex is free it is never asleep, and it can go on unless it has
      returned or waits for the proxy it is closing, which FileWriteProxy.ShutdownBounded
      says is closed in bounded time. */
  lemma {:induction false} RotatorEnds(l: Log, acts: seq<Action>)
    requires Inv(l) && Run(l, acts) && Stopping(l)
    ensures var l' := After(l, acts);
      && RotatorMoves(acts) + StepsLeft(l'.rotator) <= StepsLeft(l.rotator) <= 3
      && (l'.owner == Free ==> l'.rotator != Sleeping)
      && (l'.owner == Free && l'.rotator != Done && !l'.rotator.Closing? ==> RotatorEnabled(l'))
    decreases |acts|
  {
    hide Inv, Enabled, Apply, Stopping, StepsLeft, RotatorEnabled;
    StoppingGoes(l);
    if |acts| > 0 {
      StepKeepsInv(l, acts[0]);
      StoppingStep(l, acts[0]);
      RotatorEnds(Apply(l, acts[0]), acts[1..]);
    }
  }
}
