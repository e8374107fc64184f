/** What the rotating log promises over every interleaving: no accepted byte is
    lost, repeated or reordered on its way through queues and files. */
module CLogConservation {
  import P = FileWriteProxy
  import opened CLog

  // ---------------------------------------------------------------- reading the log

  function ContentOf(proxies: map<Inode, P.Proxy>, i: Inode): seq<Byte> {
    if i in proxies then P.Content(proxies[i]) else []
  }

  /** The files in the given order, each with the queue still to be written to it. */
  function Read(order: seq<Inode>, proxies: map<Inode, P.Proxy>): seq<Byte> {
    if |order| == 0 then [] else ContentOf(proxies, order[0]) + Read(order[1..], proxies)
  }

  function LogText(l: Log): seq<Byte> {
    Read(Files(l.names, l.limit), l.proxies)
  }

  /** The bytes on disk alone. */
  function ReadFiles(order: seq<Inode>, proxies: map<Inode, P.Proxy>): seq<Byte> {
    if |order| == 0 then []
    else FileOf(proxies, order[0]) + ReadFiles(order[1..], proxies)
  }

  function FileOf(proxies: map<Inode, P.Proxy>, i: Inode): seq<Byte> {
    if i in proxies then proxies[i].file else []
  }

  lemma {:induction false} ReadConcat(a: seq<Inode>, b: seq<Inode>, m: map<Inode, P.Proxy>)
    ensures Read(a + b, m) == Read(a, m) + Read(b, m)
  {
    if |a| == 0 {
      assert a + b == b;
    } else {
      hide ContentOf;
      ReadConcat(a[1..], b, m);
      assert (a + b)[1..] == a[1..] + b;
      Associate(ContentOf(m, a[0]), Read(a[1..], m), Read(b, m));
    }
  }

  lemma {:induction false} ReadSame(order: seq<Inode>, m: map<Inode, P.Proxy>, m': map<Inode, P.Proxy>)
    requires forall i :: i in order ==> ContentOf(m, i) == ContentOf(m', i)
    ensures Read(order, m) == Read(order, m')
  {
    if |order| > 0 { ReadSame(order[1..], m, m'); }
  }

  lemma ReadOne(i: Inode, m: map<Inode, P.Proxy>)
    ensures Read([i], m) == ContentOf(m, i)
  {
    assert [i][1..] == [];
  }

  // ---------------------------------------------------------------- names

  lemma {:induction false} SuffixesMember(names: map<Name, Inode>, n: nat, i: Inode)
    requires i in Suffixes(names, n)
    ensures exists k: nat :: k < n && Suffix(k) in names && names[Suffix(k)] == i
  {
    if !(Suffix(n - 1) in names && names[Suffix(n - 1)] == i) { SuffixesMember(names, n - 1, i); }
  }

  lemma {:induction false} SuffixesBelow(names: map<Name, Inode>, names': map<Name, Inode>, n: nat)
    requires forall k: nat :: k < n ==>
      (Suffix(k) in names <==> Suffix(k) in names') && (Suffix(k) in names ==> names[Suffix(k)] == names'[Suffix(k)])
    ensures Suffixes(names, n) == Suffixes(names', n)
  {
    if n > 0 { SuffixesBelow(names, names', n - 1); }
  }

  /** Moving a suffix up by one into a free place does not change the order. */
  lemma {:induction false} MoveUp(names: map<Name, Inode>, i: nat, n: nat)
    requires Suffix(i) in names && Suffix(i + 1) !in names && i + 1 < n
    ensures Suffixes(Move(names, Suffix(i), Suffix(i + 1)), n) == Suffixes(names, n)
  {
    var names' := Move(names, Suffix(i), Suffix(i + 1));
    if n == i + 2 {
      SuffixesBelow(names, names', i);
      assert Suffixes(names', i + 1) == Suffixes(names', i);
      assert Suffixes(names, i + 1) == [names[Suffix(i)]] + Suffixes(names, i);
      assert Suffixes(names, n) == Suffixes(names, i + 1);
    } else {
      MoveUp(names, i, n - 1);
    }
  }

  /** Moving the current file to .0 when .0 is free keeps it last. */
  lemma {:induction false} MoveCurrentToZero(names: map<Name, Inode>, n: nat)
    requires Current in names && Suffix(0) !in names && n > 0
    ensures Suffixes(Move(names, Current, Suffix(0)), n) == Suffixes(names, n) + [names[Current]]
  {
    var names' := Move(names, Current, Suffix(0));
    if n == 1 {
      assert Suffixes(names', 0) == [] == Suffixes(names, 0);
    } else {
      MoveCurrentToZero(names, n - 1);
    }
  }

  // ---------------------------------------------------------------- every step

  /** The byte a step accepts, if any. */
  function Pushed(l: Log, a: Action): seq<Byte>
    requires Enabled(l, a)
  {
    if a == ClientProxy(P.WriterPush) then [l.proxies[l.current].writer.rest[0]] else []
  }

  lemma ProxyStepText(l: Log, i: Inode, a: P.Action)
    requires i in l.proxies && P.Enabled(l.proxies[i], a) && !a.WriterPush?
    ensures LogText(ProxyStep(l, i, a)) == LogText(l)
  {
    P.StepKeepsContent(l.proxies[i], a);
    ReadSame(Files(l.names, l.limit), l.proxies, ProxyStep(l, i, a).proxies);
  }

  /** A pushed byte goes to the very end: the current file is read last, and once. */
  lemma PushText(l: Log)
    requires Inv(l) && Enabled(l, ClientProxy(P.WriterPush))
    ensures LogText(Apply(l, ClientProxy(P.WriterPush))) == LogText(l) + Pushed(l, ClientProxy(P.WriterPush))
  {
    var l' := Apply(l, ClientProxy(P.WriterPush));
    ClientMeansCurrent(l);
    P.StepKeepsContent(l.proxies[l.current], P.WriterPush);
    CurrentNotSuffixed(l);
    LastContent(l.names, l.limit, l.proxies, l'.proxies, l.current, Pushed(l, ClientProxy(P.WriterPush)));
  }

  lemma LastContent(names: map<Name, Inode>, n: nat, m: map<Inode, P.Proxy>, m': map<Inode, P.Proxy>,
                    i: Inode, more: seq<Byte>)
    requires Current in names && names[Current] == i && i !in Suffixes(names, n)
    requires forall j :: j != i ==> ContentOf(m, j) == ContentOf(m', j)
    requires ContentOf(m', i) == ContentOf(m, i) + more
    ensures Read(Files(names, n), m') == Read(Files(names, n), m) + more
  {
    hide ContentOf;
    var front := Suffixes(names, n);
    ReadSame(front, m, m');
    ReadConcat(front, [i], m);
    ReadConcat(front, [i], m');
    ReadOne(i, m);
    ReadOne(i, m');
  }

  lemma ClientMeansCurrent(l: Log)
    requires Inv(l) && l.client != Outside
    ensures Current in l.names && l.names[Current] == l.current
  {
  }

  lemma CurrentNotSuffixed(l: Log)
    requires Inv(l) && Current in l.names && l.names[Current] == l.current
    ensures l.current !in Suffixes(l.names, l.limit)
  {
    hide Exclusive, Flags, NamesOk, RolesOk, WritingOk;
    if l.current in Suffixes(l.names, l.limit) {
      SuffixesMember(l.names, l.limit, l.current);
    }
  }

  lemma RenameText(l: Log, big: bool)
    requires Inv(l) && RotatorEnabled(l) && l.rotator.Renaming?
    ensures LogText(RotatorStep(l, big)) == LogText(l)
  {
    hide Inv, Suffixes, Read;
    RenameTargetFree(l);
    RenameBelowLimit(l);
    MoveUp(l.names, l.rotator.next, l.limit);
  }

  lemma RenameBelowLimit(l: Log)
    requires Inv(l)
    ensures l.rotator.Renaming? ==> l.rotator.next + 1 < l.limit
    ensures l.rotator == MoveCurrent ==> l.limit > 0
    ensures forall k: nat :: Suffix(k) in l.names ==> k < l.limit
  {
  }

  lemma MoveCurrentText(l: Log, big: bool)
    requires Inv(l) && RotatorEnabled(l) && l.rotator == MoveCurrent
    ensures LogText(RotatorStep(l, big)) == LogText(l)
  {
    RenameTargetFree(l);
    RenameBelowLimit(l);
    MoveCurrentToZero(l.names, l.limit);
    var l' := RotatorStep(l, big);
    assert Files(l'.names, l'.limit) == Files(l.names, l.limit);
  }

  /** Reopening truncates nothing: it creates an empty file, read last. */
  lemma ReopenText(l: Log, big: bool)
    requires Inv(l) && l.rotator == Reopen
    ensures LogText(RotatorStep(l, big)) == LogText(l)
  {
    RenameTargetFree(l);
    NextIsNew(l);
    var l' := RotatorStep(l, big);
    var front := Suffixes(l.names, l.limit);
    SuffixesBelow(l.names, l'.names, l.limit);
    FilesExist(l);
    ReadSame(front, l.proxies, l'.proxies);
    ReadConcat(front, [l.next], l'.proxies);
    ReadOne(l.next, l'.proxies);
    assert Files(l.names, l.limit) == front;
    assert Files(l'.names, l'.limit) == front + [l.next];
  }

  lemma NextIsNew(l: Log)
    requires Inv(l)
    ensures l.next !in l.proxies
  {
  }

  lemma FilesExist(l: Log)
    requires Inv(l)
    ensures forall i :: i in Suffixes(l.names, l.limit) ==> i in l.proxies
  {
    hide Exclusive, Flags, NamesOk, RolesOk, WritingOk;
    forall i | i in Suffixes(l.names, l.limit) ensures i in l.proxies {
      SuffixesMember(l.names, l.limit, i);
    }
  }

  /** A rotation starts by making room for one more suffix. */
  lemma StartText(l: Log, big: bool)
    requires Inv(l) && l.rotator == Test && RotatorEnabled(l)
    ensures LogText(RotatorStep(l, big)) == LogText(l)
  {
    RenameBelowLimit(l);
    RoomAbove(l.names, l.limit);
    StartNames(l, big);
    hide Inv, Read, Suffixes, RotatorStep;
  }

  lemma RoomAbove(names: map<Name, Inode>, n: nat)
    requires Suffix(n) !in names
    ensures Suffixes(names, n + 1) == Suffixes(names, n)
  {
  }

  lemma StartNames(l: Log, big: bool)
    requires l.rotator == Test && RotatorEnabled(l)
    ensures var l' := RotatorStep(l, big);
            l'.names == l.names && l'.proxies == l.proxies && (l'.limit == l.limit || l'.limit == l.limit + 1)
  {
  }

  lemma RotatorText(l: Log, big: bool)
    requires Inv(l) && RotatorEnabled(l)
    ensures LogText(RotatorStep(l, big)) == LogText(l)
  {
    hide Inv, LogText, RotatorEnabled;
    if l.rotator.Renaming? { RenameText(l, big); }
    else if l.rotator == MoveCurrent { MoveCurrentText(l, big); }
    else if l.rotator == Reopen { ReopenText(l, big); }
    else if l.rotator == Test { StartText(l, big); }
    else { IdleText(l, big); }
  }

  lemma IdleText(l: Log, big: bool)
    requires RotatorEnabled(l) && !l.rotator.Renaming?
    requires l.rotator != MoveCurrent && l.rotator != Reopen && l.rotator != Test
    ensures LogText(RotatorStep(l, big)) == LogText(l)
  {
    hide LogText;
    SameText(l, RotatorStep(l, big));
  }

  lemma QuietText(l: Log, a: Action)
    requires Enabled(l, a) && IsQuiet(a)
    ensures LogText(Apply(l, a)) == LogText(l)
  {
    hide LogText;
    SameText(l, Apply(l, a));
  }

  /** Every step leaves the text of the log as it is, or appends the accepted byte. */
  lemma StepKeepsText(l: Log, a: Action)
    requires Inv(l) && Enabled(l, a)
    ensures LogText(Apply(l, a)) == LogText(l) + Pushed(l, a)
  {
    hide Inv, LogText, P.Enabled, P.Apply, RotatorEnabled, RotatorStep, CloserEnabled, CloserStep;
    if a.RotatorMove? {
      RotatorText(l, a.big);
    } else if a.ClientProxy? {
      if a.a.WriterPush? { PushText(l); } else { ClientProxyText(l, a.a); }
    } else if IsQuiet(a) {
      QuietText(l, a);
    } else {
      OtherProxyText(l, a);
    }
  }

  lemma OtherProxyText(l: Log, a: Action)
    requires Enabled(l, a) && (a.ConsumerMove? || a.RotatorClose? || a.CloserProxy?)
    ensures LogText(Apply(l, a)) == LogText(l)
  {
    hide LogText, P.Enabled, P.Apply;
    match a
    case ConsumerMove(i, pa) => ProxyStepText(l, i, pa);
    case RotatorClose(pa) => ProxyStepText(l, l.rotator.prev, pa);
    case CloserProxy(pa) => ProxyStepText(l, l.current, pa);
  }

  lemma SameText(l: Log, l': Log)
    requires l'.names == l.names && l'.limit == l.limit && l'.proxies == l.proxies
    ensures LogText(l') == LogText(l)
  {
  }

  lemma ClientProxyText(l: Log, pa: P.Action)
    requires Enabled(l, ClientProxy(pa)) && !pa.WriterPush?
    ensures LogText(Apply(l, ClientProxy(pa))) == LogText(l)
  {
    ProxyStepText(l, l.current, pa);
    SameText(ProxyStep(l, l.current, pa), Apply(l, ClientProxy(pa)));
  }

  // ---------------------------------------------------------------- messages

  function Flatten(messages: seq<seq<Byte>>): seq<Byte> {
    if |messages| == 0 then [] else Flatten(messages[..|messages| - 1]) + messages[|messages| - 1]
  }

  /** The part of the message being written that has been pushed already. */
  function InProgress(l: Log): seq<Byte> {
    if l.client.Writing? && l.current in l.proxies && l.proxies[l.current].writer.Pushing?
       && |l.proxies[l.current].writer.rest| <= |l.client.msg|
    then l.client.msg[..|l.client.msg| - |l.proxies[l.current].writer.rest|]
    else []
  }

  function AcceptedText(l: Log): seq<Byte> {
    Flatten(l.messages) + InProgress(l)
  }

  lemma StepAccepts(l: Log, a: Action)
    requires Inv(l) && Enabled(l, a)
    ensures AcceptedText(Apply(l, a)) == AcceptedText(l) + Pushed(l, a)
  {
    ControlPart(l);
    hide Inv, P.Enabled, P.Apply, Flatten, AcceptedText, InProgress, RotatorStep, CloserStep,
      Exclusive, WritingOk, RotatorEnabled, CloserEnabled;
    if a.RotatorMove? {
      RotatorAccepts(l, a.big);
    } else if a.ClientProxy? {
      ClientAccepts(l, a.a);
    } else if IsQuiet(a) {
      QuietAccepts(l, a);
    } else {
      OtherProxyAccepts(l, a);
    }
  }

  lemma OtherProxyAccepts(l: Log, a: Action)
    requires Enabled(l, a) && (a.ConsumerMove? || a.RotatorClose? || a.CloserProxy?)
    ensures AcceptedText(Apply(l, a)) == AcceptedText(l)
  {
    hide AcceptedText, P.Enabled, P.Apply;
    match a
    case ConsumerMove(i, pa) => ProxyAccepts(l, i, pa);
    case RotatorClose(pa) => ProxyAccepts(l, l.rotator.prev, pa);
    case CloserProxy(pa) => ProxyAccepts(l, l.current, pa);
  }

  /** A caller's own steps and those of close() touch no proxy. */
  lemma QuietAccepts(l: Log, a: Action)
    requires Enabled(l, a) && IsQuiet(a)
    ensures AcceptedText(Apply(l, a)) == AcceptedText(l)
  {
    hide AcceptedText;
    SameAccepted(l, Apply(l, a));
  }

  /** What has been accepted hangs on the messages and on a write in progress. */
  lemma SameAccepted(l: Log, l': Log)
    requires l'.messages == l.messages && (l'.client.Writing? <==> l.client.Writing?)
    requires l.client.Writing? ==> l'.client == l.client && l'.current == l.current && l'.proxies == l.proxies
    ensures AcceptedText(l') == AcceptedText(l)
  {
    hide Flatten;
  }

  lemma ProxyAccepts(l: Log, i: Inode, pa: P.Action)
    requires i in l.proxies && P.Enabled(l.proxies[i], pa) && !P.IsWriter(pa)
    ensures AcceptedText(ProxyStep(l, i, pa)) == AcceptedText(l)
  {
    hide P.Enabled, P.Apply, Flatten;
    P.StepFrame(l.proxies[i], pa);
  }

  lemma ControlPart(l: Log)
    requires Inv(l)
    ensures Exclusive(l) && l.current in l.proxies && WritingOk(l)
  {
  }

  lemma RotatorAccepts(l: Log, big: bool)
    requires Exclusive(l) && RotatorEnabled(l)
    ensures AcceptedText(RotatorStep(l, big)) == AcceptedText(l)
  {
    hide AcceptedText;
    SameAccepted(l, RotatorStep(l, big));
  }

  lemma ClientAccepts(l: Log, pa: P.Action)
    requires l.current in l.proxies && WritingOk(l) && Enabled(l, ClientProxy(pa))
    ensures AcceptedText(Apply(l, ClientProxy(pa))) == AcceptedText(l) + Pushed(l, ClientProxy(pa))
  {
    if pa.WriterPush? {
      PushAccepts(l);
    } else if pa.WriterNotify? {
      NotifyAccepts(l);
    } else {
      hide Flatten;
    }
  }

  lemma PushAccepts(l: Log)
    requires l.current in l.proxies && WritingOk(l) && Enabled(l, ClientProxy(P.WriterPush))
    ensures AcceptedText(Apply(l, ClientProxy(P.WriterPush))) == AcceptedText(l) + Pushed(l, ClientProxy(P.WriterPush))
  {
    hide Flatten;
    var l' := Apply(l, ClientProxy(P.WriterPush));
    var msg, rest := l.client.msg, l.proxies[l.current].writer.rest;
    var k := |msg| - |rest|;
    assert msg[..k] + [msg[k]] == msg[..k + 1];
    assert rest[0] == msg[k];
    assert InProgress(l') == InProgress(l) + [rest[0]];
  }

  lemma NotifyAccepts(l: Log)
    requires l.current in l.proxies && WritingOk(l) && Enabled(l, ClientProxy(P.WriterNotify))
    ensures AcceptedText(Apply(l, ClientProxy(P.WriterNotify))) == AcceptedText(l)
  {
    var l' := Apply(l, ClientProxy(P.WriterNotify));
    var msg := l.client.msg;
    assert l'.messages[..|l.messages|] == l.messages;
    assert msg[..|msg|] == msg;
  }

  // ---------------------------------------------------------------- whole runs

  predicate Run(l: Log, acts: seq<Action>)
    decreases |acts|
  {
    |acts| > 0 ==> Enabled(l, acts[0]) && Run(Apply(l, acts[0]), acts[1..])
  }

  function After(l: Log, acts: seq<Action>): Log
    requires Run(l, acts)
    decreases |acts|
  {
    if |acts| == 0 then l else After(Apply(l, acts[0]), acts[1..])
  }

  lemma {:induction false} RunKeeps(l: Log, acts: seq<Action>, base: seq<Byte>)
    requires Inv(l) && Run(l, acts) && LogText(l) == base + AcceptedText(l)
    ensures Inv(After(l, acts))
    ensures LogText(After(l, acts)) == base + AcceptedText(After(l, acts))
    decreases |acts|
  {
    if |acts| > 0 {
      hide Inv, Enabled, Apply, LogText, AcceptedText, Pushed;
      Associate(base, AcceptedText(l), Pushed(l, acts[0]));
      StepKeepsInv(l, acts[0]);
      StepKeepsText(l, acts[0]);
      StepAccepts(l, acts[0]);
      RunKeeps(Apply(l, acts[0]), acts[1..], base);
    }
  }

  /** In every interleaving of clients, rotator, closer and consumers, reading the
      files from the oldest to the current one, each with its pending queue, gives
      the log as it was opened, then every accepted message once, whole and in
      order, then what has been pushed of the one being written. */
  lemma LogConserved(l: Log, acts: seq<Action>)
    requires Initial(l) && Run(l, acts)
    ensures Inv(After(l, acts))
    ensures LogText(After(l, acts))
         == LogText(l) + Flatten(After(l, acts).messages) + InProgress(After(l, acts))
  {
    hide Inv, LogText, Run, After, Flatten, InProgress;
    InitialInv(l);
    NothingAcceptedYet(l);
    RunKeeps(l, acts, LogText(l));
    Associate(LogText(l), Flatten(After(l, acts).messages), InProgress(After(l, acts)));
  }

  lemma NothingAcceptedYet(l: Log)
    requires Initial(l)
    ensures LogText(l) == LogText(l) + AcceptedText(l)
  {
    hide LogText;
    assert AcceptedText(l) == [];
  }

  lemma Associate(a: seq<Byte>, b: seq<Byte>, c: seq<Byte>)
    ensures a + (b + c) == a + b + c
  {
  }

  /** At most two writers are live: the current one and the one being replaced. */
  lemma AtMostTwoWriters(l: Log, i: Inode)
    requires Inv(l) && i in l.proxies && l.proxies[i].consumer != P.Exited
    ensures i == l.current || IsOld(l, i)
  {
    assert RoleOk(l, i);
  }
}
