/** The section iterator of misc/ConfigFileReader.ipp: a stack of open files that
    include directives push and ends of files pop. A line is taken as already
    classified; the file system is a parameter. */
module ConfigFileReaderModule {

  /** One line after comments are cut: a "[name]" header, an include directive
      with its trimmed file name, or key-value pairs (none for a blank line). */
  datatype Line = Header(name: string) | Include(file: string) | Body(pairs: seq<(string, string)>)

  type Files = map<string, seq<Line>>

  /** A file on the stack and the stream position saved for it. */
  datatype Frame = Frame(file: string, pos: int)

  function Names(stack: seq<Frame>): set<string> {
    set f | f in stack :: f.file
  }

  /** std::map::insert: the first value of a key stays. */
  function Insert(config: map<string, string>, pairs: seq<(string, string)>): map<string, string>
    decreases |pairs|
  {
    if |pairs| == 0 then config
    else
      var (k, v) := pairs[0];
      Insert(if k in config then config else config[k := v], pairs[1..])
  }

  /** An include takes effect when its name is longer than one character and no
      file of that name is being read. */
  predicate Opens(file: string, open: set<string>) {
    |file| > 1 && file !in open
  }

  predicate Fails(files: Files, f: Frame) {
    f.file !in files || f.pos < 0 || f.pos > |files[f.file]|
  }

  // ---------------------------------------------------------------- the document

  datatype Item = Head(name: string) | Pairs(pairs: seq<(string, string)>)

  /** What a file contributes from a position on, with every include replaced by
      the contents of the included file; open are the files being read. */
  function Expand(files: Files, f: Frame, open: set<string>): seq<Item>
    decreases |files.Keys - open|, if Fails(files, f) then 0 else |files[f.file]| - f.pos
  {
    if Fails(files, f) || f.pos == |files[f.file]| then []
    else
      var rest := Expand(files, f.(pos := f.pos + 1), open);
      match files[f.file][f.pos]
      case Header(h) => [Head(h)] + rest
      case Body(ps) => [Pairs(ps)] + rest
      case Include(g) =>
        if Opens(g, open) && g in files then
          FewerLeft(files, g, open);
          Expand(files, Frame(g, 0), open + {g}) + rest
        else rest
  }

  lemma FewerLeft(files: Files, g: string, open: set<string>)
    requires g in files && g !in open
    ensures |files.Keys - (open + {g})| < |files.Keys - open|
  {
    var a, b := files.Keys - (open + {g}), files.Keys - open;
    assert b == a + {g};
  }

  /** A file that only includes another one, which exists and is not the file itself, reads
      as that other file exactly when the name has more than one character: the code
      compares positions where it means lengths. */
  lemma IncludeIff(files: Files, f: string, g: string)
    requires f in files && files[f] == [Include(g)] && g in files && g != f && |g| >= 1
    requires Expand(files, Frame(g, 0), {f} + {g}) != []
    ensures Expand(files, Frame(f, 0), {f}) == Expand(files, Frame(g, 0), {f} + {g}) <==> |g| > 1
  {
    assert Expand(files, Frame(f, 1), {f}) == [];
    if |g| > 1 {
      assert Expand(files, Frame(f, 0), {f}) == Expand(files, Frame(g, 0), {f} + {g}) + [];
    }
  }

  /** The short name at work. */
  lemma ShortIncludeIgnored()
    ensures var files := map["top" := [Include("a")], "a" := [Header("h")]];
            Expand(files, Frame("top", 0), {"top"}) == [] && Expand(files, Frame("a", 0), {"a"}) == [Head("h")]
  {
    var files: Files := map["top" := [Include("a")], "a" := [Header("h")]];
    assert Expand(files, Frame("top", 1), {"top"}) == [];
    assert Expand(files, Frame("a", 1), {"a"}) == [];
  }

  /** What the frames of a stack still contribute, the top frame first. */
  function Remaining(files: Files, stack: seq<Frame>): seq<Item> {
    if |stack| == 0 then []
    else Expand(files, stack[|stack| - 1], Names(stack)) + Remaining(files, stack[..|stack| - 1])
  }

  /** How many rounds of the reading loop a frame still takes: its lines, the
      failing read at the end, the pop, and all that its includes take. */
  function Rounds(files: Files, f: Frame, open: set<string>): nat
    decreases |files.Keys - open|, if Fails(files, f) then 0 else |files[f.file]| - f.pos
  {
    if Fails(files, f) then 1
    else if f.pos == |files[f.file]| then 2
    else
      var rest := 1 + Rounds(files, f.(pos := f.pos + 1), open);
      match files[f.file][f.pos]
      case Include(g) =>
        if !Opens(g, open) then rest
        else if g in files then
          FewerLeft(files, g, open);
          1 + Rounds(files, Frame(g, 0), open + {g}) + rest
        else 2 + rest
      case _ => rest
  }

  function TotalRounds(files: Files, stack: seq<Frame>): nat {
    if |stack| == 0 then 0
    else Rounds(files, stack[|stack| - 1], Names(stack)) + TotalRounds(files, stack[..|stack| - 1])
  }

  // ---------------------------------------------------------------- sections

  datatype Section = Section(name: string, started: bool, config: map<string, string>)

  const EMPTY := Section("", false, map[])

  /** Reads up to, and not including, the second header. */
  function ReadSection(items: seq<Item>, acc: Section): (r: (Section, seq<Item>))
    ensures |r.1| <= |items|
    ensures r.1 != [] ==> r.1[0].Head?
    ensures items != [] && !acc.started ==> |r.1| < |items|
  {
    if |items| == 0 then (acc, [])
    else match items[0]
      case Head(h) =>
        if acc.started then (acc, items) else ReadSection(items[1..], acc.(name := h, started := true))
      case Pairs(ps) => ReadSection(items[1..], acc.(config := Insert(acc.config, ps)))
  }

  /** All sections of a document. An empty document has one empty section. */
  function AllSections(items: seq<Item>): seq<Section>
    decreases |items|
  {
    var (s, rest) := ReadSection(items, EMPTY);
    [s] + if rest == [] then [] else AllSections(rest)
  }

  // ---------------------------------------------------------------- what a section holds

  /** No earlier pair has the key of pair i. */
  predicate IsFirst(ps: seq<(string, string)>, i: nat)
    requires i < |ps|
  {
    forall j :: 0 <= j < i ==> ps[j].0 != ps[i].0
  }

  predicate Occurs(ps: seq<(string, string)>, k: string) {
    exists i :: 0 <= i < |ps| && ps[i].0 == k
  }

  /** v is the value of the first occurrence of k. */
  predicate FirstValue(ps: seq<(string, string)>, k: string, v: string) {
    exists i :: 0 <= i < |ps| && ps[i] == (k, v) && IsFirst(ps, i)
  }

  /** m has exactly the keys that occur in ps, each with the value of its first occurrence. */
  ghost predicate FirstWins(m: map<string, string>, ps: seq<(string, string)>) {
    && (forall k :: k in m <==> Occurs(ps, k))
    && (forall k :: k in m ==> FirstValue(ps, k, m[k]))
  }

  /** All pairs, in document order. */
  function PairsOf(items: seq<Item>): seq<(string, string)> {
    if |items| == 0 then []
    else (match items[0] case Pairs(ps) => ps case Head(_) => []) + PairsOf(items[1..])
  }

  /** The first section consists of the first n items: they hold at most one header, and
      end where the document ends or at the second header. */
  predicate SectionEnds(items: seq<Item>, n: nat)
    requires n <= |items|
  {
    && (forall i, j :: 0 <= i < j < n ==> !(items[i].Head? && items[j].Head?))
    && (n < |items| ==> items[n].Head? && exists i :: 0 <= i < n && items[i].Head?)
  }

  predicate IsNamed(name: string, items: seq<Item>, n: nat)
    requires n <= |items|
  {
    && (forall i :: 0 <= i < n && items[i].Head? ==> items[i].name == name)
    && ((forall i :: 0 <= i < n ==> !items[i].Head?) ==> name == "")
  }

  /** The name and the pairs of the section that the first n items make up. */
  ghost predicate IsSection(name: string, config: map<string, string>, items: seq<Item>, n: nat)
    requires n <= |items|
  {
    SectionEnds(items, n) && IsNamed(name, items, n) && FirstWins(config, PairsOf(items[..n]))
  }

  /** The sections of a document, told without the reader: they cut it up at every header
      but the first, and each holds its header's name and its pairs, the first one of a
      key winning. */
  ghost predicate Sections(sections: seq<(string, map<string, string>)>, items: seq<Item>)
    decreases |sections|
  {
    && |sections| > 0
    && exists n: nat :: n <= |items| && IsSection(sections[0].0, sections[0].1, items, n)
         && if n == |items| then |sections| == 1 else Sections(sections[1..], items[n..])
  }

  /** Inserting pairs keeps the first value of every key. */
  lemma {:induction false} InsertFirstWins(config: map<string, string>, before: seq<(string, string)>, ps: seq<(string, string)>)
    requires FirstWins(config, before)
    ensures FirstWins(Insert(config, ps), before + ps)
    decreases |ps|
  {
    hide FirstWins;
    if |ps| == 0 {
      assert before + ps == before;
    } else {
      var (k, v) := ps[0];
      InsertOne(config, before, k, v);
      InsertFirstWins(if k in config then config else config[k := v], before + [ps[0]], ps[1..]);
      assert before + [ps[0]] + ps[1..] == before + ps;
    }
  }

  lemma InsertOne(config: map<string, string>, before: seq<(string, string)>, k: string, v: string)
    requires FirstWins(config, before)
    ensures FirstWins(if k in config then config else config[k := v], before + [(k, v)])
  {
    var m, ps := if k in config then config else config[k := v], before + [(k, v)];
    forall x ensures x in m <==> Occurs(ps, x) {
      if Occurs(before, x) {
        var i :| 0 <= i < |before| && before[i].0 == x;
        assert ps[i].0 == x;
      }
      if Occurs(ps, x) && x != k {
        var i :| 0 <= i < |ps| && ps[i].0 == x;
        assert before[i].0 == x;
      }
      assert ps[|before|].0 == k;
    }
    forall x | x in m ensures FirstValue(ps, x, m[x]) {
      if x in config {
        var i :| 0 <= i < |before| && before[i] == (x, config[x]) && IsFirst(before, i);
        assert ps[i] == (x, m[x]) && forall j :: 0 <= j < i ==> ps[j] == before[j];
        assert IsFirst(ps, i);
      } else {
        forall j | 0 <= j < |before| ensures ps[j].0 != k {
          assert Occurs(before, before[j].0);
        }
        assert ps[|before|] == (k, v) && IsFirst(ps, |before|);
      }
    }
  }

  /** The number of items that ReadSection consumes. */
  ghost function Consumed(items: seq<Item>, seen: bool): (n: nat)
    ensures n <= |items|
  {
    if |items| == 0 || (items[0].Head? && seen) then 0 else 1 + Consumed(items[1..], seen || items[0].Head?)
  }

  lemma {:induction false} ReadPairs(items: seq<Item>, acc: Section, before: seq<(string, string)>)
    requires FirstWins(acc.config, before)
    ensures var (s, rest) := ReadSection(items, acc);
      var n := Consumed(items, acc.started);
      rest == items[n..] && FirstWins(s.config, before + PairsOf(items[..n]))
    decreases |items|
  {
    hide FirstWins, Insert;
    var n := Consumed(items, acc.started);
    if n == 0 {
      assert PairsOf(items[..0]) == [] && before + [] == before;
    } else {
      var ps := if items[0].Pairs? then items[0].pairs else [];
      var rest := PairsOf(items[1..][..n - 1]);
      assert items[..n][0] == items[0] && items[..n][1..] == items[1..][..n - 1];
      assert PairsOf(items[..n]) == ps + rest;
      assert before + (ps + rest) == (before + ps) + rest;
      match items[0]
      case Pairs(_) =>
        InsertFirstWins(acc.config, before, ps);
        ReadPairs(items[1..], acc.(config := Insert(acc.config, ps)), before + ps);
      case Head(h) =>
        assert before + ps == before;
        ReadPairs(items[1..], acc.(name := h, started := true), before);
    }
  }

  /** After a header the section goes on to the next one. */
  lemma {:induction false} ReadOn(items: seq<Item>, acc: Section)
    requires acc.started
    ensures var n := Consumed(items, true);
      && ReadSection(items, acc).0.name == acc.name
      && (forall i :: 0 <= i < n ==> !items[i].Head?) && (n < |items| ==> items[n].Head?)
    decreases |items|
  {
    hide Insert;
    var n := Consumed(items, true);
    if n > 0 {
      ReadOn(items[1..], acc.(config := Insert(acc.config, items[0].pairs)));
      ShiftItems(items, n);
    }
  }

  lemma {:induction false} ReadCut(items: seq<Item>, acc: Section)
    requires !acc.started && acc.name == ""
    ensures var n := Consumed(items, false);
      SectionEnds(items, n) && IsNamed(ReadSection(items, acc).0.name, items, n)
    decreases |items|
  {
    hide Insert;
    var n := Consumed(items, false);
    if |items| > 0 {
      ShiftItems(items, n);
      match items[0]
      case Pairs(ps) =>
        ReadCut(items[1..], acc.(config := Insert(acc.config, ps)));
        CutLater(items, n, ReadSection(items, acc).0.name);
      case Head(h) =>
        ReadOn(items[1..], acc.(name := h, started := true));
        CutHere(items, n, h);
    }
  }

  lemma CutLater(items: seq<Item>, n: nat, name: string)
    requires 0 < n <= |items| && items[0].Pairs?
    requires SectionEnds(items[1..], n - 1) && IsNamed(name, items[1..], n - 1)
    ensures SectionEnds(items, n) && IsNamed(name, items, n)
  {
    var t := items[1..];
    forall i, j | 0 <= i < j < n ensures !(items[i].Head? && items[j].Head?) {
      if i > 0 { assert items[i] == t[i - 1] && items[j] == t[j - 1]; }
    }
    if n < |items| {
      assert items[n] == t[n - 1];
      var i :| 0 <= i < n - 1 && t[i].Head?;
      assert items[i + 1].Head?;
    }
    forall i | 0 <= i < n && items[i].Head? ensures items[i].name == name {
      assert items[i] == t[i - 1];
    }
    if forall i :: 0 <= i < n ==> !items[i].Head? {
      forall i | 0 <= i < n - 1 ensures !t[i].Head? {
        assert t[i] == items[i + 1];
      }
    }
  }

  lemma CutHere(items: seq<Item>, n: nat, name: string)
    requires 0 < n <= |items| && items[0] == Head(name)
    requires forall i :: 0 <= i < n - 1 ==> !items[1..][i].Head?
    requires n < |items| ==> items[1..][n - 1].Head?
    ensures SectionEnds(items, n) && IsNamed(name, items, n)
  {
    forall i | 0 < i < n ensures !items[i].Head? {
      assert items[i] == items[1..][i - 1];
    }
  }

  lemma ShiftItems(items: seq<Item>, n: nat)
    requires 0 < n <= |items|
    ensures items[n..] == items[1..][n - 1..]
    ensures forall i :: 0 <= i < n - 1 ==> items[1..][i] == items[i + 1]
  {
  }

  lemma NoPairs()
    ensures FirstWins(map[], [])
  {
  }

  /** One section as ReadSection delivers it. */
  lemma DeliveredSection(items: seq<Item>)
    ensures var (s, rest) := ReadSection(items, EMPTY);
      var n := Consumed(items, false);
      rest == items[n..] && IsSection(s.name, s.config, items, n)
  {
    NoPairs();
    ReadPairs(items, EMPTY, []);
    ReadCut(items, EMPTY);
    hide FirstWins, SectionEnds, IsNamed, ReadSection;
    assert [] + PairsOf(items[..Consumed(items, false)]) == PairsOf(items[..Consumed(items, false)]);
  }

  /** What the client sees of all sections cuts up the document. */
  lemma {:induction false} ShownSections(seen: seq<(string, map<string, string>)>, items: seq<Item>)
    requires Shown(seen, AllSections(items))
    ensures Sections(seen, items)
    decreases |items|
  {
    hide IsSection, ReadSection;
    DeliveredSection(items);
    Shrinks(items);
    var (s, rest) := ReadSection(items, EMPTY);
    var n := Consumed(items, false);
    FirstSection(items);
    hide AllSections;
    assert seen[0] == (s.name, s.config);
    if rest != [] {
      assert AllSections(items)[1..] == AllSections(rest);
      ShownSections(seen[1..], rest);
    }
  }

  predicate Distinct(stack: seq<Frame>) {
    forall i, j :: 0 <= i < j < |stack| ==> stack[i].file != stack[j].file
  }

  // ---------------------------------------------------------------- one round

  /** The stack with the local stream position in place of the saved one. */
  function At(stack: seq<Frame>, pos: int): seq<Frame>
    requires |stack| > 0
  {
    stack[|stack| - 1 := stack[|stack| - 1].(pos := pos)]
  }

  lemma NamesAt(stack: seq<Frame>, pos: int)
    requires |stack| > 0
    ensures Names(At(stack, pos)) == Names(stack)
    ensures At(stack, pos)[..|stack| - 1] == stack[..|stack| - 1]
  {
    var a := At(stack, pos);
    forall n | n in Names(a) ensures n in Names(stack) {
      var i :| 0 <= i < |a| && a[i].file == n;
      assert stack[i] in stack;
    }
    forall n | n in Names(stack) ensures n in Names(a) {
      var i :| 0 <= i < |stack| && stack[i].file == n;
      assert a[i] in a;
    }
  }

  lemma NamesPush(stack: seq<Frame>, f: Frame)
    ensures Names(stack + [f]) == Names(stack) + {f.file}
    ensures (stack + [f])[..|stack|] == stack
  {
    assert forall g :: g in stack + [f] <==> g in stack || g == f;
  }

  /** Popping a failed frame. */
  lemma PopRound(files: Files, stack: seq<Frame>)
    requires |stack| > 0 && Fails(files, stack[|stack| - 1])
    ensures Remaining(files, stack) == Remaining(files, stack[..|stack| - 1])
    ensures TotalRounds(files, stack) == TotalRounds(files, stack[..|stack| - 1]) + 1
  {
  }

  /** The failing read at the end of a file. */
  lemma EndRound(files: Files, stack: seq<Frame>, pos: int)
    requires |stack| > 0 && stack[|stack| - 1].file in files && pos == |files[stack[|stack| - 1].file]|
    ensures Remaining(files, At(stack, -1)) == Remaining(files, At(stack, pos))
    ensures TotalRounds(files, At(stack, -1)) < TotalRounds(files, At(stack, pos))
  {
    NamesAt(stack, -1);
    NamesAt(stack, pos);
  }

  /** The items of the line at pos, with all that its include brings. */
  function LineItems(files: Files, line: Line, open: set<string>): seq<Item> {
    match line
    case Header(h) => [Head(h)]
    case Body(ps) => [Pairs(ps)]
    case Include(g) =>
      if Opens(g, open) && g in files then Expand(files, Frame(g, 0), open + {g}) else []
  }

  lemma LineRound(files: Files, stack: seq<Frame>, pos: nat)
    requires |stack| > 0 && stack[|stack| - 1].file in files && pos < |files[stack[|stack| - 1].file]|
    ensures Remaining(files, At(stack, pos))
         == LineItems(files, files[stack[|stack| - 1].file][pos], Names(stack)) + Remaining(files, At(stack, pos + 1))
    ensures TotalRounds(files, At(stack, pos + 1)) < TotalRounds(files, At(stack, pos))
  {
    NamesAt(stack, pos);
    NamesAt(stack, pos + 1);
    var f := stack[|stack| - 1].file;
    LineExpands(files, Frame(f, pos), Names(stack));
    var rest := Remaining(files, stack[..|stack| - 1]);
    var tail := Expand(files, Frame(f, pos + 1), Names(stack));
    var items := LineItems(files, files[f][pos], Names(stack));
    assert (items + tail) + rest == items + (tail + rest);
  }

  lemma LineExpands(files: Files, f: Frame, open: set<string>)
    requires f.file in files && 0 <= f.pos < |files[f.file]|
    ensures Expand(files, f, open)
         == LineItems(files, files[f.file][f.pos], open) + Expand(files, f.(pos := f.pos + 1), open)
    ensures Rounds(files, f.(pos := f.pos + 1), open) < Rounds(files, f, open)
  {
    assert [] + Expand(files, f.(pos := f.pos + 1), open) == Expand(files, f.(pos := f.pos + 1), open);
  }

  /** Pushing an included file. */
  lemma PushRound(files: Files, stack: seq<Frame>, pos: nat, g: string)
    requires |stack| > 0 && stack[|stack| - 1].file in files && pos < |files[stack[|stack| - 1].file]|
    requires files[stack[|stack| - 1].file][pos] == Include(g) && Opens(g, Names(stack))
    ensures var pushed := At(stack, pos + 1) + [Frame(g, 0)];
      && Remaining(files, pushed) == Remaining(files, At(stack, pos))
      && TotalRounds(files, pushed) < TotalRounds(files, At(stack, pos))
  {
    NamesAt(stack, pos);
    NamesAt(stack, pos + 1);
    NamesPush(At(stack, pos + 1), Frame(g, 0));
    LineRound(files, stack, pos);
  }

  /** A file that does not start the second section only moves the reading on. */
  lemma ReadItem(item: Item, rest: seq<Item>, acc: Section)
    ensures item.Pairs? ==>
      ReadSection([item] + rest, acc) == ReadSection(rest, acc.(config := Insert(acc.config, item.pairs)))
    ensures item.Head? && !acc.started ==>
      ReadSection([item] + rest, acc) == ReadSection(rest, acc.(name := item.name, started := true))
    ensures item.Head? && acc.started ==> ReadSection([item] + rest, acc) == (acc, [item] + rest)
  {
    assert ([item] + rest)[1..] == rest;
  }

  /** Reading one section from items gives this name and these pairs and leaves rest. */
  predicate Delivers(name: string, config: map<string, string>, rest: seq<Item>, items: seq<Item>) {
    var (s, t) := ReadSection(items, EMPTY);
    s.name == name && s.config == config && t == rest
  }

  /** The same, told without the reader: some first items make up the section. */
  ghost predicate Reads(name: string, config: map<string, string>, rest: seq<Item>, items: seq<Item>) {
    exists n: nat :: n <= |items| && IsSection(name, config, items, n) && rest == items[n..]
  }

  lemma DeliversReads(name: string, config: map<string, string>, rest: seq<Item>, items: seq<Item>)
    requires Delivers(name, config, rest, items)
    ensures Reads(name, config, rest, items)
  {
    hide IsSection, ReadSection;
    DeliveredSection(items);
    Delivered(name, config, rest, items);
  }

  class ConfigFileReader {
    const files: Files
    var eofFlag: bool
    var section: string
    var config: map<string, string>
    var fstack: seq<Frame>

    constructor (files: Files)
      ensures this.files == files && eofFlag && section == "" && config == map[] && fstack == []
    {
      this.files := files;
      eofFlag, section, config, fstack := true, "", map[], [];
    }

    /** operator++: reads the next section. It ends on every file system, also
        when files include each other, and its effect is that of reading one
        section from the expanded document. */
    method Next()
      modifies this
      ensures old(fstack) == [] ==> eofFlag && section == "" && config == map[] && fstack == []
      ensures old(fstack) != [] ==>
        && eofFlag == old(eofFlag)
        && Delivers(section, config, Remaining(files, fstack), old(Remaining(files, fstack)))
        && Reads(section, config, Remaining(files, fstack), old(Remaining(files, fstack)))
        && (fstack != [] ==> Remaining(files, fstack) != [])
        && (old(Distinct(fstack)) ==> Distinct(fstack))
    {
      hide Reads;
      ghost var items := Remaining(files, fstack);
      section := "";
      config := map[];
      if fstack == [] {
        eofFlag := true;
        return;
      }
      var inSection := false;
      ghost var goal := ReadSection(Remaining(files, fstack), EMPTY);
      while fstack != []
        invariant eofFlag == old(eofFlag)
        invariant ReadSection(Remaining(files, fstack), Section(section, inSection, config)) == goal
        invariant old(Distinct(fstack)) ==> Distinct(fstack)
        decreases TotalRounds(files, fstack)
      {
        var stopped := ReadTop(inSection, goal);
        inSection := stopped.1;
        if stopped.0 {
          assert (Section(section, true, config), Remaining(files, fstack)) == goal;
          DeliversReads(section, config, Remaining(files, fstack), items);
          return;
        }
      }
      assert (Section(section, inSection, config), Remaining(files, fstack)) == goal;
      DeliversReads(section, config, Remaining(files, fstack), items);
    }

    /** The inner loop: reads the top file until it is popped, an include is
        pushed (the outer loop then goes on), or a second header ends the section.
        Returns whether the section ended, and whether a header was seen. */
    method ReadTop(seen: bool, ghost goal: (Section, seq<Item>)) returns (r: (bool, bool))
      requires fstack != []
      requires ReadSection(Remaining(files, fstack), Section(section, seen, config)) == goal
      modifies this
      ensures eofFlag == old(eofFlag)
      ensures old(Distinct(fstack)) ==> Distinct(fstack)
      ensures !r.0 ==>
        && ReadSection(Remaining(files, fstack), Section(section, r.1, config)) == goal
        && TotalRounds(files, fstack) < old(TotalRounds(files, fstack))
      ensures r.0 ==>
        (Section(section, true, config), Remaining(files, fstack)) == goal && Remaining(files, fstack) != []
    {
      hide Expand, Rounds, Remaining, TotalRounds, ReadSection, Distinct, Names;
      var inSection := seen;
      var top := fstack[|fstack| - 1];
      var pos := top.pos;
      ghost var stack := fstack;
      assert At(fstack, pos) == fstack;
      while true
        invariant eofFlag == old(eofFlag) && fstack == stack
        invariant ReadSection(Remaining(files, At(stack, pos)), Section(section, inSection, config)) == goal
        invariant TotalRounds(files, At(stack, pos)) <= TotalRounds(files, stack)
        decreases TotalRounds(files, At(stack, pos))
      {
        if top.file !in files || pos < 0 || pos > |files[top.file]| {
          PopRound(files, At(stack, pos));
          NamesAt(stack, pos);
          DistinctPop(stack);
          fstack := fstack[..|fstack| - 1];
          return (false, inSection);
        }
        var prev := pos;
        if pos == |files[top.file]| {
          EndRound(files, stack, pos);
          pos := -1;
          continue;
        }
        var line := files[top.file][pos];
        LineRound(files, stack, pos);
        pos := pos + 1;
        ghost var rest := Remaining(files, At(stack, pos));
        match line
        case Header(h) =>
          ReadItem(Head(h), rest, Section(section, inSection, config));
          if !inSection {
            section := h;
            inSection := true;
          } else {
            DistinctAt(stack, prev);
            fstack := At(fstack, prev);
            return (true, true);
          }
        case Include(g) =>
          if |g| > 1 && !(exists i :: 0 <= i < |fstack| && fstack[i].file == g) {
            NotNamed(stack, g);
            PushRound(files, stack, prev, g);
            DistinctPush(stack, pos, g);
            fstack := At(fstack, pos) + [Frame(g, 0)];
            return (false, inSection);
          }
          Ignored(stack, g);
          assert LineItems(files, line, Names(stack)) + rest == rest;
        case Body(ps) =>
          ReadItem(Pairs(ps), rest, Section(section, inSection, config));
          config := Insert(config, ps);
      }
    }

    static lemma NotNamed(stack: seq<Frame>, g: string)
      requires |g| > 1 && !exists i :: 0 <= i < |stack| && stack[i].file == g
      ensures Opens(g, Names(stack))
    {
    }

    static lemma Ignored(stack: seq<Frame>, g: string)
      requires !(|g| > 1 && !exists i :: 0 <= i < |stack| && stack[i].file == g)
      ensures !Opens(g, Names(stack))
    {
      if i :| 0 <= i < |stack| && stack[i].file == g { assert stack[i] in stack; }
    }

    static lemma DistinctPop(stack: seq<Frame>)
      requires |stack| > 0
      ensures Distinct(stack) ==> Distinct(stack[..|stack| - 1])
    {
    }

    static lemma DistinctAt(stack: seq<Frame>, pos: int)
      requires |stack| > 0
      ensures Distinct(stack) ==> Distinct(At(stack, pos))
    {
    }

    static lemma DistinctPush(stack: seq<Frame>, pos: int, g: string)
      requires |stack| > 0 && g !in Names(stack)
      ensures Distinct(stack) ==> Distinct(At(stack, pos) + [Frame(g, 0)])
    {
      NamesAt(stack, pos);
      forall i | 0 <= i < |stack| ensures stack[i].file != g {
        assert stack[i] in stack;
      }
    }

    method Open(filename: string)
      modifies this
      ensures !eofFlag
      ensures Delivers(section, config, Remaining(files, fstack),
                       Remaining(files, old(fstack) + [Frame(filename, 0)]))
      ensures Reads(section, config, Remaining(files, fstack), Remaining(files, old(fstack) + [Frame(filename, 0)]))
      ensures fstack != [] ==> Remaining(files, fstack) != []
      ensures old(Distinct(fstack)) && filename !in old(Names(fstack)) ==> Distinct(fstack)
    {
      ghost var before := fstack;
      fstack := fstack + [Frame(filename, 0)];
      eofFlag := false;
      section := "";
      config := map[];
      assert Distinct(before) && filename !in Names(before) ==> Distinct(fstack) by {
        if filename !in Names(before) {
          forall i | 0 <= i < |before| ensures before[i].file != filename {
            assert before[i] in before;
          }
        }
      }
      Next();
    }
  }

  /** Reading a file to the end, as a client does: open, then use the section and
      advance until isEmpty. It terminates for any finite set of files and yields
      exactly the sections of the expanded document. */
  method ReadAll(files: Files, filename: string) returns (sections: seq<(string, map<string, string>)>)
    ensures Shown(sections, AllSections(Expand(files, Frame(filename, 0), {filename})))
    ensures Sections(sections, Expand(files, Frame(filename, 0), {filename}))
  {
    hide Sections, Expand, Remaining, ReadSection, AllSections, Shown, Delivers;
    var r := new ConfigFileReader(files);
    sections := [];
    r.Open(filename);
    ghost var items := Expand(files, Frame(filename, 0), {filename});
    OneFrame(files, filename);
    assert [] + [Frame(filename, 0)] == [Frame(filename, 0)];
    ghost var done: seq<Section> := [];
    ghost var todo := items;
    ShownNothing();
    while !r.eofFlag
      invariant r.files == files
      invariant Shown(sections, done)
      invariant !r.eofFlag ==>
        && done + AllSections(todo) == AllSections(items)
        && Delivers(r.section, r.config, Remaining(files, r.fstack), todo)
        && (r.fstack != [] ==> Remaining(files, r.fstack) != [])
      invariant r.eofFlag ==> done == AllSections(items)
      decreases !r.eofFlag, |todo|, r.fstack != []
    {
      NextSection(done, todo, r.section, r.config, Remaining(files, r.fstack));
      if r.fstack == [] { NoFrames(files); }
      ShownMore(sections, done, ReadSection(todo, EMPTY).0);
      sections := sections + [(r.section, r.config)];
      done := done + [ReadSection(todo, EMPTY).0];
      todo := ReadSection(todo, EMPTY).1;
      r.Next();
    }
    ShownSections(sections, items);
  }

  lemma NoFrames(files: Files)
    ensures Remaining(files, []) == []
  {
  }

  lemma ShownNothing()
    ensures Shown([], [])
  {
  }

  lemma NextSection(done: seq<Section>, todo: seq<Item>, name: string, config: map<string, string>, rest: seq<Item>)
    requires Delivers(name, config, rest, todo)
    ensures var (s, t) := ReadSection(todo, EMPTY);
      && s.name == name && s.config == config && t == rest
      && done + AllSections(todo) == (done + [s]) + (if rest == [] then [] else AllSections(rest))
      && (rest != [] ==> |rest| < |todo|) && |rest| <= |todo|
  {
    Delivered(name, config, rest, todo);
    FirstSection(todo);
    hide *;
    Shrinks(todo);
    Regroup(done, ReadSection(todo, EMPTY).0, if rest == [] then [] else AllSections(rest));
  }

  lemma Delivered(name: string, config: map<string, string>, rest: seq<Item>, items: seq<Item>)
    requires Delivers(name, config, rest, items)
    ensures var (s, t) := ReadSection(items, EMPTY); s.name == name && s.config == config && t == rest
  {
    hide ReadSection;
  }

  lemma FirstSection(items: seq<Item>)
    ensures var (s, rest) := ReadSection(items, EMPTY);
            AllSections(items) == [s] + (if rest == [] then [] else AllSections(rest))
  {
    hide ReadSection;
  }

  lemma Regroup(a: seq<Section>, s: Section, b: seq<Section>)
    ensures a + ([s] + b) == (a + [s]) + b
  {
  }

  lemma Shrinks(todo: seq<Item>)
    ensures var t := ReadSection(todo, EMPTY).1; |t| <= |todo| && (t != [] ==> |t| < |todo|)
  {
  }

  lemma ShownMore(seen: seq<(string, map<string, string>)>, done: seq<Section>, s: Section)
    requires Shown(seen, done)
    ensures Shown(seen + [(s.name, s.config)], done + [s])
  {
  }

  lemma OneFrame(files: Files, filename: string)
    ensures Remaining(files, [Frame(filename, 0)]) == Expand(files, Frame(filename, 0), {filename})
  {
    var s := [Frame(filename, 0)];
    assert Names(s) == {filename} by { assert s[0] in s; }
    assert s[..0] == [];
  }

  /** What the client sees of a list of sections. */
  predicate Shown(seen: seq<(string, map<string, string>)>, sections: seq<Section>) {
    |seen| == |sections| && forall i :: 0 <= i < |seen| ==> seen[i] == (sections[i].name, sections[i].config)
  }
}
