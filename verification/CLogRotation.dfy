/** When the log rotates, and what a rotation leaves: the suffixed files moved up by one
    as far as the first free suffix, the current file as suffix 0, and a new empty one. */
module CLogRotation {
  import P = FileWriteProxy
  import opened CLog
  import opened CLogConservation
  import C = CLogClosing

  type Names = map<Name, Inode>

  predicate Same(a: Names, b: Names, f: Name) {
    (f in a <==> f in b) && (f in a ==> a[f] == b[f])
  }

  /** b has under g the file that a has under f. */
  predicate Moved(a: Names, f: Name, b: Names, g: Name) {
    f in a && g in b && b[g] == a[f]
  }

  ghost predicate FirstFree(names: Names, m: nat) {
    Suffix(m) !in names && forall k: nat :: k < m ==> Suffix(k) in names
  }

  /** The suffixes from i up to m - 1 have moved up by one, which leaves i free. */
  ghost predicate Raised(before: Names, m: nat, i: nat, names: Names) {
    && (forall k: nat :: k < i || k > m ==> Same(before, names, Suffix(k)))
    && (forall k: nat :: i <= k < m ==> Moved(before, Suffix(k), names, Suffix(k + 1)))
    && Suffix(i) !in names
  }

  /** All of them have, and the current file has suffix 0. */
  ghost predicate Shifted(before: Names, m: nat, names: Names) {
    && (forall k: nat :: k > m ==> Same(before, names, Suffix(k)))
    && (forall k: nat :: k < m ==> Moved(before, Suffix(k), names, Suffix(k + 1)))
    && Moved(before, Current, names, Suffix(0))
  }

  /** l is what a rotation begun in l0 leaves: shifted names, a new current file without
      contents, the old one about to be closed, and no request to rotate at once. */
  ghost predicate Rotated(l0: Log, l: Log, m: nat) {
    && Shifted(l0.names, m, l.names)
    && Moved(map[Current := l.current], Current, l.names, Current)
    && l.current !in l0.proxies && l.current in l.proxies && P.Content(l.proxies[l.current]) == []
    && l.rotator == Leaving(l0.current)
    && !l.rotateFirst
  }

  /** How far the rotation begun in l0 has come. */
  ghost predicate Underway(l0: Log, l: Log, m: nat) {
    && l.current == l0.current && l.proxies.Keys == l0.proxies.Keys
    && match l.rotator
       case Listing(s) => s <= m && l.names == l0.names
       case Renaming(i) => i < m && Raised(l0.names, m, i + 1, l.names) && Same(l0.names, l.names, Current)
       case MoveCurrent => Raised(l0.names, m, 0, l.names) && Same(l0.names, l.names, Current)
       case Reopen => Shifted(l0.names, m, l.names) && Current !in l.names && !l.rotateFirst
       case _ => false
  }

  ghost predicate Rotating(l0: Log, l: Log, m: nat) {
    Underway(l0, l, m) || Rotated(l0, l, m)
  }

  // ---------------------------------------------------------------- when it rotates

  /** With no stop request the rotator goes on to rotate exactly when it has been told to
      rotate at first or the file has reached the size; else it sleeps and nothing has
      changed but the mutex. */
  lemma RotatesIff(l: Log, big: bool)
    requires Inv(l) && l.rotator == Test && !l.stop
    ensures RotatorEnabled(l)
    ensures var l' := RotatorStep(l, big);
      && (l'.rotator == Listing(0) <==> l.rotateFirst || big)
      && (l'.rotator != Listing(0) ==> l' == l.(owner := Free, rotator := Sleeping))
      && l'.names == l.names && l'.proxies == l.proxies && l'.current == l.current
  {
  }

  /** There is a first free suffix. */
  lemma FirstFreeExists(l: Log) returns (m: nat)
    requires Inv(l)
    ensures FirstFree(l.names, m)
  {
    SuffixesBounded(l);
    hide Inv;
    m := FreeFrom(l.names, 0, l.limit);
  }

  ghost predicate TakenBelow(names: Names, m: nat) {
    forall k: nat :: k < m ==> Suffix(k) in names
  }

  lemma {:induction false} FreeFrom(names: Names, i: nat, limit: nat) returns (m: nat)
    requires TakenBelow(names, i) && i <= limit && forall k: nat :: Suffix(k) in names ==> k < limit
    ensures FirstFree(names, m)
    decreases limit - i
  {
    if Suffix(i) in names {
      m := FreeFrom(names, i + 1, limit);
    } else {
      m := i;
    }
  }

  lemma SuffixesBounded(l: Log)
    requires Inv(l)
    ensures forall k: nat :: Suffix(k) in l.names ==> k < l.limit
  {
  }

  // ---------------------------------------------------------------- the steps of a rotation

  lemma RaiseOne(before: Names, m: nat, i: nat, names: Names)
    requires i < m && FirstFree(before, m) && Raised(before, m, i + 1, names)
    ensures Suffix(i) in names && Raised(before, m, i, Move(names, Suffix(i), Suffix(i + 1)))
  {
    assert Same(before, names, Suffix(i)) && Suffix(i) in before;
    var after := Move(names, Suffix(i), Suffix(i + 1));
    forall k: nat | k < i || k > m ensures Same(before, after, Suffix(k)) {
      assert Same(before, names, Suffix(k));
    }
    forall k: nat | i <= k < m ensures Moved(before, Suffix(k), after, Suffix(k + 1)) {
      if k > i { assert Moved(before, Suffix(k), names, Suffix(k + 1)); }
    }
  }

  lemma RaiseCurrent(before: Names, m: nat, names: Names)
    requires Current in before && Raised(before, m, 0, names) && Same(before, names, Current)
    ensures Current in names && Shifted(before, m, Move(names, Current, Suffix(0)))
    ensures Current !in Move(names, Current, Suffix(0))
  {
    var after := Move(names, Current, Suffix(0));
    forall k: nat | k > m ensures Same(before, after, Suffix(k)) {
      assert Same(before, names, Suffix(k));
    }
    forall k: nat | k < m ensures Moved(before, Suffix(k), after, Suffix(k + 1)) {
      assert Moved(before, Suffix(k), names, Suffix(k + 1));
    }
  }

  lemma RaiseNone(before: Names, m: nat)
    requires FirstFree(before, m)
    ensures Raised(before, m, m, before)
  {
  }

  lemma ShiftedKeeps(before: Names, m: nat, names: Names, i: Inode)
    requires Shifted(before, m, names)
    ensures Shifted(before, m, names[Current := i])
  {
    forall k: nat | k > m ensures Same(before, names[Current := i], Suffix(k)) {
      assert Same(before, names, Suffix(k));
    }
    forall k: nat | k < m ensures Moved(before, Suffix(k), names[Current := i], Suffix(k + 1)) {
      assert Moved(before, Suffix(k), names, Suffix(k + 1));
    }
  }

  lemma RotatorUnderway(l0: Log, l: Log, m: nat, big: bool)
    requires Inv(l) && FirstFree(l0.names, m) && Current in l0.names && Underway(l0, l, m)
    ensures RotatorEnabled(l) && Rotating(l0, RotatorStep(l, big), m)
    ensures Left(RotatorStep(l, big), m) < Left(l, m)
  {
    hide Inv, Raised, Shifted;
    match l.rotator
    case Listing(s) => ListingUnderway(l0, l, m, big);
    case Renaming(i) => RaiseOne(l0.names, m, i, l.names);
    case MoveCurrent => RaiseCurrent(l0.names, m, l.names);
    case Reopen => ReopenRotates(l0, l, m, big);
    case _ =>
  }

  lemma ListingUnderway(l0: Log, l: Log, m: nat, big: bool)
    requires FirstFree(l0.names, m) && Underway(l0, l, m) && l.rotator.Listing?
    ensures Rotating(l0, RotatorStep(l, big), m)
  {
    hide Raised, Shifted;
    RaiseNone(l0.names, m);
  }

  lemma ReopenRotates(l0: Log, l: Log, m: nat, big: bool)
    requires Inv(l) && Underway(l0, l, m) && l.rotator == Reopen
    ensures Rotated(l0, RotatorStep(l, big), m)
  {
    NextIsNew(l);
    ShiftedKeeps(l0.names, m, l.names, l.next);
    hide Inv, Shifted, Raised;
  }

  // ---------------------------------------------------------------- runs

  /** The rotator's steps to the end of the rotation. */
  function Left(l: Log, m: nat): nat {
    match l.rotator
    case Listing(s) => (if s <= m then m - s else 0) + m + 3
    case Renaming(i) => i + 3
    case MoveCurrent => 2
    case Reopen => 1
    case _ => 0
  }

  /** While the rotator has the mutex nobody but a consumer makes another step. */
  lemma OthersWait(l0: Log, l: Log, m: nat, a: Action)
    requires Inv(l) && Enabled(l, a) && Rotating(l0, l, m) && !a.RotatorMove?
    ensures a.ConsumerMove?
  {
    hide NamesOk, InodesOk, RolesOk, Raised, Shifted, P.Enabled;
  }

  lemma ConsumerKeeps(l0: Log, l: Log, m: nat, i: Inode, pa: P.Action)
    requires Enabled(l, ConsumerMove(i, pa)) && Rotating(l0, l, m)
    ensures Rotating(l0, Apply(l, ConsumerMove(i, pa)), m)
    ensures Left(Apply(l, ConsumerMove(i, pa)), m) == Left(l, m)
  {
    hide Raised, Shifted, P.Enabled, P.Apply, P.Content;
    P.StepKeepsContent(l.proxies[i], pa);
    assert [] + P.Accepted(l.proxies[i], pa) == [];
  }

  lemma StepRotates(l0: Log, l: Log, m: nat, a: Action)
    requires Inv(l) && FirstFree(l0.names, m) && Current in l0.names && Rotating(l0, l, m) && Enabled(l, a)
    requires !(l.rotator.Leaving? && a.RotatorMove?)
    ensures Rotating(l0, Apply(l, a), m)
    ensures Left(Apply(l, a), m) + (if a.RotatorMove? then 1 else 0) <= Left(l, m)
  {
    hide Inv, Underway, Rotated, P.Enabled, P.Apply;
    if a.RotatorMove? {
      NotLeaving(l0, l, m);
      RotatorUnderway(l0, l, m, a.big);
    } else {
      OthersWait(l0, l, m, a);
      ConsumerKeeps(l0, l, m, a.i, a.a);
    }
  }

  lemma NotLeaving(l0: Log, l: Log, m: nat)
    requires Rotating(l0, l, m) && !l.rotator.Leaving?
    ensures Underway(l0, l, m)
  {
  }

  /** The run does not go past the end of the rotation. */
  predicate Within(l: Log, acts: seq<Action>)
    requires Run(l, acts)
    decreases |acts|
  {
    |acts| > 0 ==> !(l.rotator.Leaving? && acts[0].RotatorMove?) && Within(Apply(l, acts[0]), acts[1..])
  }

  lemma {:induction false} RunRotates(l0: Log, l: Log, m: nat, acts: seq<Action>)
    requires Inv(l) && FirstFree(l0.names, m) && Current in l0.names && Rotating(l0, l, m)
    requires Run(l, acts) && Within(l, acts)
    ensures Inv(After(l, acts)) && Rotating(l0, After(l, acts), m)
    ensures C.RotatorMoves(acts) + Left(After(l, acts), m) <= Left(l, m)
    decreases |acts|
  {
    hide Inv, Rotating, Enabled, Apply, FirstFree, Left;
    if |acts| > 0 {
      StepKeepsInv(l, acts[0]);
      StepRotates(l0, l, m, acts[0]);
      RunRotates(l0, Apply(l, acts[0]), m, acts[1..]);
    }
  }

  /** In every run from a rotation's beginning to its end the names are the old ones
      shifted up to the first free suffix, the current file is new and empty, and the
      request to rotate at once is gone. Until then the rotator is never stuck, and it
      takes at most 2m + 3 steps. */
  lemma RotationShifts(l0: Log, big: bool, m: nat, acts: seq<Action>)
    requires Inv(l0) && l0.rotator == Test && !l0.stop && (l0.rotateFirst || big) && FirstFree(l0.names, m)
    requires RotatorEnabled(l0) && Run(RotatorStep(l0, big), acts) && Within(RotatorStep(l0, big), acts)
    ensures var l := After(RotatorStep(l0, big), acts);
      && (l.rotator.Leaving? ==> Rotated(l0, l, m))
      && (!l.rotator.Leaving? ==> Underway(l0, l, m) && RotatorEnabled(l))
      && C.RotatorMoves(acts) <= 2 * m + 3
  {
    var l1 := RotatorStep(l0, big);
    RotatesIff(l0, big);
    CurrentNamed(l0);
    hide Inv, Run, Within, FirstFree;
    assert Apply(l0, RotatorMove(big)) == l1;
    StepKeepsInv(l0, RotatorMove(big));
    RunRotates(l0, l1, m, acts);
    var l := After(l1, acts);
    if !l.rotator.Leaving? {
      NotLeaving(l0, l, m);
      RotatorUnderway(l0, l, m, big);
    }
  }

  lemma CurrentNamed(l: Log)
    requires Inv(l) && l.rotator == Test
    ensures Current in l.names
  {
  }
}
