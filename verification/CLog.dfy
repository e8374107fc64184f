/** The rotating log of logging/CLog.ipp as a state machine over the threads that
    touch it: the rotator (operator()), a client inside write(), the thread that
    calls close(), and the consumer of every FileWriteProxy it has opened. A
    small file system maps names to inodes; an inode's bytes live in the proxy
    that works on it. A client tests isOpen() outside the mutex, so its lock can come
    at any time, also while close() runs or after it. A message is never empty, since
    its terminating zero is written too. Assumed: renames and opens succeed and nobody
    else touches the files. */
module CLog {
  import P = FileWriteProxy

  type Byte = P.Byte
  type Inode = nat

  datatype Name = Current | Suffix(n: nat)

  datatype Owner = Free | ByRotator | ByClient | ByCloser

  /** Program points of operator(). */
  datatype Rotator =
    | Top | CheckStop | Test | Sleeping | Woken
    | Listing(suffix: nat) | Renaming(next: nat) | MoveCurrent | Reopen
    | Leaving(prev: Inode) | Closing(prev: Inode) | Done

  /** A client: outside, holding the log's mutex before, inside or after the
      write to the current proxy. */
  datatype Client = Outside | Holding(msg: seq<Byte>) | Writing(msg: seq<Byte>) | Written | Notified

  datatype Closer = Open | Locked | StopSet | StopNotified | Joining | ClosingCurrent | Closed

  datatype Log = Log(
    names: map<Name, Inode>,
    proxies: map<Inode, P.Proxy>,
    next: Inode,
    limit: nat,
    current: Inode,
    owner: Owner,
    rotator: Rotator,
    client: Client,
    closer: Closer,
    stop: bool,
    rotateFirst: bool,
    messages: seq<seq<Byte>>)

  datatype Action =
    | ConsumerMove(i: Inode, a: P.Action)
    | ClientLock(msg: seq<Byte>) | ClientProxy(a: P.Action) | ClientNotify | ClientUnlock
    | RotatorMove(big: bool) | RotatorClose(a: P.Action)
    | CloserMove | CloserProxy(a: P.Action)

  // ---------------------------------------------------------------- the file system

  /** rename(2): the target, if it exists, is replaced. */
  function Move(names: map<Name, Inode>, from: Name, to: Name): map<Name, Inode>
    requires from in names
  {
    (names - {from})[to := names[from]]
  }

  /** The suffixed files from the highest suffix below n down to .0. */
  function Suffixes(names: map<Name, Inode>, n: nat): seq<Inode> {
    if n == 0 then []
    else (if Suffix(n - 1) in names then [names[Suffix(n - 1)]] else []) + Suffixes(names, n - 1)
  }

  /** All log files, oldest first: suffixes from the highest to .0, then the
      current file. */
  function Files(names: map<Name, Inode>, n: nat): seq<Inode> {
    Suffixes(names, n) + (if Current in names then [names[Current]] else [])
  }

  // ---------------------------------------------------------------- steps

  predicate RotatorEnabled(l: Log) {
    match l.rotator
    case Top => l.owner == Free
    case Woken => l.owner == Free
    case MoveCurrent => Current in l.names
    case Renaming(i) => Suffix(i) in l.names
    case Closing(prev) => prev in l.proxies && l.proxies[prev].closer == P.Closed
    case Done => false
    case _ => true
  }

  predicate CloserEnabled(l: Log) {
    match l.closer
    case Open => l.owner == Free
    case Joining => l.rotator == Done
    case ClosingCurrent => l.current in l.proxies && l.proxies[l.current].closer == P.Closed
    case Closed => false
    case _ => true
  }

  predicate ClientMayAct(c: Client, a: P.Action) {
    match c
    case Holding(msg) => a == P.WriterLock(msg)
    case Writing(_) => a.WriterPush? || a.WriterNotify? || a.WriterUnlock?
    case _ => false
  }

  predicate Enabled(l: Log, a: Action) {
    match a
    case ConsumerMove(i, pa) => P.IsConsumer(pa) && i in l.proxies && P.Enabled(l.proxies[i], pa)
    case ClientLock(msg) => l.client == Outside && l.owner == Free && msg != []
    case ClientProxy(pa) =>
      ClientMayAct(l.client, pa) && l.current in l.proxies && P.Enabled(l.proxies[l.current], pa)
    case ClientNotify => l.client == Written
    case ClientUnlock => l.client == Notified
    case RotatorMove(_) => RotatorEnabled(l)
    case RotatorClose(pa) =>
      P.IsCloser(pa) && l.rotator.Closing? && l.rotator.prev in l.proxies && P.Enabled(l.proxies[l.rotator.prev], pa)
    case CloserMove => CloserEnabled(l)
    case CloserProxy(pa) =>
      P.IsCloser(pa) && l.closer == ClosingCurrent && l.current in l.proxies && P.Enabled(l.proxies[l.current], pa)
  }

  function ProxyStep(l: Log, i: Inode, a: P.Action): Log
    requires i in l.proxies && P.Enabled(l.proxies[i], a)
  {
    l.(proxies := l.proxies[i := P.Apply(l.proxies[i], a)])
  }

  function ClientAfter(c: Client, a: P.Action): Client
    requires ClientMayAct(c, a)
  {
    if a.WriterLock? then Writing(c.msg) else if a.WriterUnlock? then Written else c
  }

  function Signal(r: Rotator): Rotator {
    if r == Sleeping then Woken else r
  }

  /** The rotator's next step; big says whether the file has reached the size at
      which to rotate. */
  function RotatorStep(l: Log, big: bool): Log
    requires RotatorEnabled(l)
  {
    match l.rotator
    case Top => l.(owner := ByRotator, rotator := CheckStop)
    case CheckStop => if l.stop then l.(owner := Free, rotator := Done) else l.(rotator := Test)
    case Test =>
      if !l.rotateFirst && !big && !l.stop then l.(owner := Free, rotator := Sleeping)
      else if l.stop then l.(owner := Free, rotator := Done)
      else l.(rotator := Listing(0), limit := l.limit + 1)
    case Sleeping => l.(rotator := Woken)
    case Woken => l.(owner := ByRotator, rotator := Test)
    case Listing(s) =>
      if Suffix(s) in l.names then l.(rotator := Listing(s + 1))
      else if s == 0 then l.(rotator := MoveCurrent)
      else l.(rotator := Renaming(s - 1))
    case Renaming(i) =>
      l.(names := Move(l.names, Suffix(i), Suffix(i + 1)),
         rotator := if i == 0 then MoveCurrent else Renaming(i - 1))
    case MoveCurrent => l.(names := Move(l.names, Current, Suffix(0)), rotateFirst := false, rotator := Reopen)
    case Reopen =>
      // fopen with "w": an existing file would be truncated
      var i := if Current in l.names then l.names[Current] else l.next;
      l.(names := l.names[Current := i],
         proxies := l.proxies[i := P.Opened([])],
         next := if i == l.next then l.next + 1 else l.next,
         current := i,
         rotator := Leaving(l.current))
    case Leaving(prev) => l.(owner := Free, rotator := Closing(prev))
    case Closing(_) => l.(rotator := Top)
  }

  function CloserStep(l: Log): Log
    requires CloserEnabled(l)
  {
    match l.closer
    case Open => l.(owner := ByCloser, closer := Locked)
    case Locked => l.(stop := true, closer := StopSet)
    case StopSet => l.(closer := StopNotified, rotator := Signal(l.rotator))
    case StopNotified => l.(owner := Free, closer := Joining)
    case Joining => l.(closer := ClosingCurrent)
    case ClosingCurrent => l.(closer := Closed)
  }

  function Apply(l: Log, a: Action): Log
    requires Enabled(l, a)
  {
    match a
    case ConsumerMove(i, pa) => ProxyStep(l, i, pa)
    case ClientLock(msg) => l.(owner := ByClient, client := Holding(msg))
    case ClientProxy(pa) =>
      ProxyStep(l, l.current, pa).(
        client := ClientAfter(l.client, pa),
        messages := if pa.WriterNotify? then l.messages + [l.client.msg] else l.messages)
    case ClientNotify => l.(client := Notified, rotator := Signal(l.rotator))
    case ClientUnlock => l.(owner := Free, client := Outside)
    case RotatorMove(big) => RotatorStep(l, big)
    case RotatorClose(pa) => ProxyStep(l, l.rotator.prev, pa)
    case CloserMove => CloserStep(l)
    case CloserProxy(pa) => ProxyStep(l, l.current, pa)
  }

  // ---------------------------------------------------------------- invariant

  predicate Exclusive(l: Log) {
    && (l.owner == ByRotator <==>
         l.rotator == CheckStop || l.rotator == Test || l.rotator.Listing? || l.rotator.Renaming?
         || l.rotator == MoveCurrent || l.rotator == Reopen || l.rotator.Leaving?)
    && (l.owner == ByClient <==> l.client != Outside)
    && (l.owner == ByCloser <==> l.closer == Locked || l.closer == StopSet || l.closer == StopNotified)
  }

  predicate Flags(l: Log) {
    && (l.stop <==> l.closer != Open && l.closer != Locked)
    && (l.rotator == Done ==> l.stop)
    && (EndOfLog(l) ==> l.rotator == Done)
    && (l.rotator == Sleeping && l.stop ==> l.owner == ByCloser && l.closer == StopSet)
  }

  /** What the rotator knows about the suffixes at its program point. */
  ghost predicate NamesOk(l: Log) {
    && (forall k: nat :: Suffix(k) in l.names ==> k < l.limit)
    && (l.rotator != Reopen ==> Current in l.names && l.names[Current] == l.current)
    && (l.rotator == Reopen ==> Current !in l.names)
    && (l.rotator.Listing? ==>
         && l.rotator.suffix < l.limit
         && (forall k: nat :: Suffix(k) in l.names ==> k + 1 < l.limit)
         && (forall k: nat :: k < l.rotator.suffix ==> Suffix(k) in l.names))
    && (l.rotator.Renaming? ==>
         && l.rotator.next + 1 < l.limit
         && Suffix(l.rotator.next + 1) !in l.names
         && (forall k: nat :: k <= l.rotator.next ==> Suffix(k) in l.names))
    && (l.rotator == MoveCurrent ==> l.limit > 0 && Suffix(0) !in l.names)
  }

  ghost predicate InodesOk(l: Log) {
    && l.current in l.proxies
    && (forall i :: i in l.proxies ==> i < l.next)
    && (forall f :: f in l.names ==> l.names[f] in l.proxies)
    && (forall f, g :: f in l.names && g in l.names && f != g ==> l.names[f] != l.names[g])
  }

  predicate IsOld(l: Log, i: Inode) {
    l.rotator == Leaving(i) || l.rotator == Closing(i)
  }

  /** close() works on the current proxy, or is through with it. */
  predicate EndOfLog(l: Log) {
    l.closer == ClosingCurrent || l.closer == Closed
  }

  /** The current proxy is open until close() reaches it, the one being replaced
      is on its way out, all others are closed; only the client writes, and only
      to the current one. Once close() has reached it, a late client may still push
      bytes into it. */
  predicate RoleOk(l: Log, i: Inode)
    requires i in l.proxies
  {
    var p := l.proxies[i];
    && P.Inv(p)
    && (i != l.current || !EndOfLog(l) ==> P.Orderly(p))
    && (p.writer != P.Outside ==> i == l.current && l.client.Writing?)
    && (i == l.current ==> !IsOld(l, i))
    && (i == l.current ==> p.closer == P.NotClosing || EndOfLog(l))
    && (i == l.current && l.closer == Closed ==> p.closer == P.Closed)
    && (i != l.current && !IsOld(l, i) ==> p.closer == P.Closed)
    && (l.rotator == Leaving(i) ==> p.closer == P.NotClosing)
  }

  ghost predicate RolesOk(l: Log) {
    forall i :: i in l.proxies ==> RoleOk(l, i)
  }

  /** Inside the proxy, what is left to push is the rest of the message. */
  predicate WritingOk(l: Log)
    requires l.current in l.proxies
  {
    l.client.Writing? ==>
      var w := l.proxies[l.current].writer;
      || w == P.Notified
      || (w.Pushing? && |w.rest| <= |l.client.msg| && w.rest == l.client.msg[|l.client.msg| - |w.rest|..])
  }

  ghost predicate Inv(l: Log) {
    Exclusive(l) && Flags(l) && NamesOk(l) && InodesOk(l) && RolesOk(l) && WritingOk(l)
  }

  /** open(): the file was opened for appending, the other log files lie there. */
  ghost predicate Initial(l: Log) {
    && l.owner == Free && l.rotator == Top && l.client == Outside && l.closer == Open && !l.stop
    && l.messages == []
    && InodesOk(l) && Current in l.names && l.names[Current] == l.current
    && (forall k: nat :: Suffix(k) in l.names ==> k < l.limit)
    && (forall i :: i in l.proxies ==>
         l.proxies[i] == if i == l.current then P.Opened(l.proxies[i].file) else P.Dormant(l.proxies[i].file))
  }

  lemma InitialInv(l: Log)
    requires Initial(l)
    ensures Inv(l)
  {
    forall i | i in l.proxies ensures RoleOk(l, i) {
      P.InitialInv(l.proxies[i].file);
    }
  }

  // ---------------------------------------------------------------- steps keep the invariant

  lemma ProxyStepKeeps(l: Log, i: Inode, a: P.Action)
    requires Inv(l) && i in l.proxies && P.Enabled(l.proxies[i], a) && !P.IsWriter(a)
    requires P.IsCloser(a) ==> (i == l.current && l.closer == ClosingCurrent) || l.rotator == Closing(i)
    ensures Inv(ProxyStep(l, i, a))
  {
    hide P.Enabled, P.Apply, P.Inv, P.Orderly, NamesOk, InodesOk;
    var l' := ProxyStep(l, i, a);
    assert NamesOk(l') && InodesOk(l') by { ProxyStepNames(l, i, a); }
    forall j | j in l'.proxies ensures RoleOk(l', j) {
      assert RoleOk(l, j) && RoleOk(l, i);
      if j == i {
        P.StepKeepsInv(l.proxies[i], a);
        if P.Orderly(l.proxies[i]) { P.StepKeepsOrderly(l.proxies[i], a); }
        P.StepFrame(l.proxies[i], a);
      }
    }
    P.StepFrame(l.proxies[i], a);
    CurrentExists(l);
  }

  lemma CurrentExists(l: Log)
    requires InodesOk(l)
    ensures l.current in l.proxies
  {
  }

  lemma ProxyStepNames(l: Log, i: Inode, a: P.Action)
    requires NamesOk(l) && InodesOk(l) && i in l.proxies && P.Enabled(l.proxies[i], a)
    ensures NamesOk(ProxyStep(l, i, a)) && InodesOk(ProxyStep(l, i, a))
  {
  }

  lemma ClientProxyKeeps(l: Log, a: P.Action)
    requires Inv(l) && Enabled(l, ClientProxy(a))
    ensures Inv(Apply(l, ClientProxy(a)))
  {
    hide P.Inv, P.Orderly, NamesOk, InodesOk;
    var i := l.current;
    var l' := Apply(l, ClientProxy(a));
    assert NamesOk(l') && InodesOk(l') by { ClientProxyNames(l, a); }
    assert RoleOk(l, i);
    forall j | j in l'.proxies ensures RoleOk(l', j) {
      assert RoleOk(l, j);
      if j == i {
        P.StepKeepsInv(l.proxies[i], a);
        if !EndOfLog(l) { P.StepKeepsOrderly(l.proxies[i], a); }
        P.StepFrame(l.proxies[i], a);
      }
    }
  }

  lemma ClientProxyNames(l: Log, a: P.Action)
    requires NamesOk(l) && InodesOk(l) && Enabled(l, ClientProxy(a))
    ensures NamesOk(Apply(l, ClientProxy(a))) && InodesOk(Apply(l, ClientProxy(a)))
  {
  }

  /** Steps that touch neither files nor proxies. */
  predicate IsQuiet(a: Action) {
    a.ClientLock? || a.ClientNotify? || a.ClientUnlock? || a.CloserMove?
  }

  lemma QuietStepKeeps(l: Log, a: Action)
    requires Inv(l) && Enabled(l, a) && IsQuiet(a)
    ensures Inv(Apply(l, a))
  {
    CurrentExists(l);
    QuietControl(l, a);
    QuietNames(l, a);
    QuietRoles(l, a);
    hide *;
    Together(Apply(l, a));
  }

  lemma Together(l: Log)
    requires Exclusive(l) && Flags(l) && NamesOk(l) && InodesOk(l) && RolesOk(l)
    requires l.current in l.proxies && WritingOk(l)
    ensures Inv(l)
  {
  }

  lemma QuietControl(l: Log, a: Action)
    requires Exclusive(l) && Flags(l) && l.current in l.proxies && WritingOk(l) && Enabled(l, a) && IsQuiet(a)
    ensures var l' := Apply(l, a);
      Exclusive(l') && Flags(l') && l'.current in l'.proxies && WritingOk(l')
  {
  }

  lemma QuietNames(l: Log, a: Action)
    requires NamesOk(l) && InodesOk(l) && Enabled(l, a) && IsQuiet(a)
    ensures NamesOk(Apply(l, a)) && InodesOk(Apply(l, a))
  {
    hide NamesOk, InodesOk;
    SameNames(l, Apply(l, a));
  }

  /** The rotator is between rotations. */
  predicate IsIdle(r: Rotator) {
    !r.Listing? && !r.Renaming? && r != MoveCurrent && r != Reopen
  }

  lemma SameNames(l: Log, l': Log)
    requires NamesOk(l) && InodesOk(l)
    requires l'.names == l.names && l'.proxies == l.proxies && l'.next == l.next
    requires l'.limit == l.limit && l'.current == l.current
    requires l'.rotator == l.rotator || (IsIdle(l.rotator) && IsIdle(l'.rotator))
    ensures NamesOk(l') && InodesOk(l')
  {
  }

  lemma QuietRoles(l: Log, a: Action)
    requires Inv(l) && Enabled(l, a) && IsQuiet(a)
    ensures RolesOk(Apply(l, a))
  {
    hide P.Inv, P.Orderly, NamesOk;
    var l' := Apply(l, a);
    forall i | i in l'.proxies ensures RoleOk(l', i) {
      assert RoleOk(l, i);
    }
  }

  /** The rotator's steps other than renaming and reopening. */
  predicate IsPlain(r: Rotator) {
    !r.Renaming? && r != MoveCurrent && r != Reopen
  }

  lemma RotatorPlainKeeps(l: Log, big: bool)
    requires Inv(l) && RotatorEnabled(l) && IsPlain(l.rotator)
    ensures Inv(RotatorStep(l, big))
  {
    CurrentExists(l);
    RotatorControl(l, big);
    PlainNames(l, big);
    RotatorRoles(l, big);
    hide *;
    Together(RotatorStep(l, big));
  }

  lemma RotatorControl(l: Log, big: bool)
    requires Exclusive(l) && Flags(l) && l.current in l.proxies && WritingOk(l)
    requires RotatorEnabled(l) && l.rotator != Reopen
    ensures var l' := RotatorStep(l, big);
      Exclusive(l') && Flags(l') && l'.current in l'.proxies && WritingOk(l')
  {
  }

  lemma PlainNames(l: Log, big: bool)
    requires NamesOk(l) && InodesOk(l) && RotatorEnabled(l) && IsPlain(l.rotator)
    ensures NamesOk(RotatorStep(l, big)) && InodesOk(RotatorStep(l, big))
  {
    if l.rotator.Listing? {
      ListingNames(l, big);
    } else if RotatorStep(l, big).rotator.Listing? {
      StartListingNames(l, big);
    } else {
      hide NamesOk, InodesOk;
      SameNames(l, RotatorStep(l, big));
    }
  }

  lemma ListingNames(l: Log, big: bool)
    requires NamesOk(l) && InodesOk(l) && l.rotator.Listing?
    ensures NamesOk(RotatorStep(l, big)) && InodesOk(RotatorStep(l, big))
  {
    ListingInodes(l, big);
    hide InodesOk;
  }

  lemma ListingInodes(l: Log, big: bool)
    requires InodesOk(l) && l.rotator.Listing? && RotatorEnabled(l)
    ensures InodesOk(RotatorStep(l, big))
  {
  }

  lemma StartListingNames(l: Log, big: bool)
    requires NamesOk(l) && InodesOk(l) && l.rotator == Test && RotatorStep(l, big).rotator.Listing?
    ensures NamesOk(RotatorStep(l, big)) && InodesOk(RotatorStep(l, big))
  {
  }

  lemma RotatorRoles(l: Log, big: bool)
    requires Inv(l) && RotatorEnabled(l) && l.rotator != Reopen
    ensures RolesOk(RotatorStep(l, big))
  {
    RotatorFrame(l, big);
    hide P.Inv, P.Orderly, NamesOk, RotatorStep;
    var l' := RotatorStep(l, big);
    forall i | i in l'.proxies ensures RoleOk(l', i) {
      assert RoleOk(l, i);
    }
  }

  /** Between rotations the rotator leaves the proxies alone and drops its old one closed. */
  lemma RotatorFrame(l: Log, big: bool)
    requires RotatorEnabled(l) && l.rotator != Reopen
    ensures var l' := RotatorStep(l, big);
      && l'.proxies == l.proxies && l'.current == l.current && l'.client == l.client && l'.closer == l.closer
      && !l'.rotator.Leaving?
      && forall i :: i in l.proxies ==>
           (IsOld(l', i) ==> IsOld(l, i)) && (IsOld(l, i) && !IsOld(l', i) ==> l.proxies[i].closer == P.Closed)
  {
  }

  /** No rename overwrites a file: its target does not exist. */
  lemma RenameTargetFree(l: Log)
    requires Inv(l)
    ensures l.rotator.Renaming? ==> Suffix(l.rotator.next) in l.names && Suffix(l.rotator.next + 1) !in l.names
    ensures l.rotator == MoveCurrent ==> Current in l.names && Suffix(0) !in l.names
    ensures l.rotator == Reopen ==> Current !in l.names
  {
  }

  lemma RenameKeeps(l: Log, big: bool)
    requires Inv(l) && RotatorEnabled(l) && (l.rotator.Renaming? || l.rotator == MoveCurrent)
    ensures Inv(RotatorStep(l, big))
  {
    CurrentExists(l);
    RotatorControl(l, big);
    RenameNames(l, big);
    RotatorRoles(l, big);
    hide *;
    Together(RotatorStep(l, big));
  }

  lemma RenameNames(l: Log, big: bool)
    requires NamesOk(l) && InodesOk(l) && RotatorEnabled(l) && (l.rotator.Renaming? || l.rotator == MoveCurrent)
    ensures NamesOk(RotatorStep(l, big)) && InodesOk(RotatorStep(l, big))
  {
  }

  lemma ReopenKeeps(l: Log, big: bool)
    requires Inv(l) && l.rotator == Reopen
    ensures Inv(RotatorStep(l, big))
  {
    ReopenNames(l, big);
    ReopenRoles(l, big);
    hide NamesOk, InodesOk, RolesOk, RoleOk;
    CurrentExists(RotatorStep(l, big));
  }

  lemma ReopenNames(l: Log, big: bool)
    requires NamesOk(l) && InodesOk(l) && l.rotator == Reopen
    ensures NamesOk(RotatorStep(l, big)) && InodesOk(RotatorStep(l, big))
  {
  }

  lemma ReopenRoles(l: Log, big: bool)
    requires Inv(l) && l.rotator == Reopen
    ensures RolesOk(RotatorStep(l, big))
  {
    hide P.Inv, P.Orderly;
    var l' := RotatorStep(l, big);
    OpenedOrderly();
    forall i | i in l'.proxies ensures RoleOk(l', i) {
      if i != l.next { assert RoleOk(l, i); }
    }
  }

  lemma OpenedOrderly()
    ensures P.Inv(P.Opened([])) && P.Orderly(P.Opened([]))
  {
  }

  lemma StepKeepsInv(l: Log, a: Action)
    requires Inv(l) && Enabled(l, a)
    ensures Inv(Apply(l, a))
  {
    hide Inv;
    match a
    case ConsumerMove(i, pa) => ProxyStepKeeps(l, i, pa);
    case ClientProxy(pa) => ClientProxyKeeps(l, pa);
    case RotatorMove(big) =>
      if l.rotator.Renaming? || l.rotator == MoveCurrent { RenameKeeps(l, big); }
      else if l.rotator == Reopen { ReopenKeeps(l, big); }
      else { RotatorPlainKeeps(l, big); }
    case RotatorClose(pa) => ProxyStepKeeps(l, l.rotator.prev, pa);
    case CloserProxy(pa) => ProxyStepKeeps(l, l.current, pa);
    case _ => QuietStepKeeps(l, a);
  }
}
