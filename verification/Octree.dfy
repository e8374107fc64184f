/** The octree container of misc/Octree.ipp: for each level a map from Morton numbers to
    positions in a vector of instances. */
module OctreeModule {
  import opened Morton

  /** A cell of the tree, named by its Morton number. */
  datatype Cell = Cell(number: bv32)

  /** One level: indices is a bijection between its keys and the positions, and keys
      lists them in the order of their assignment. */
  predicate LevelOk(indices: map<Cell, nat>, keys: seq<Cell>, size: nat) {
    && |keys| == size
    && (forall i :: 0 <= i < size ==> keys[i] in indices && indices[keys[i]] == i)
    && (forall m :: m in indices ==> 0 <= indices[m] < size && keys[indices[m]] == m)
  }

  function Extended(index: map<Cell, nat>, m: Cell, i: nat): map<Cell, nat> {
    index[m := i]
  }

  lemma LevelGrows(indices: map<Cell, nat>, keys: seq<Cell>, m: Cell)
    requires LevelOk(indices, keys, |keys|) && m !in indices
    ensures LevelOk(Extended(indices, m, |keys|), keys + [m], |keys| + 1)
  {
    var n, t, u := |keys|, Extended(indices, m, |keys|), keys + [m];
    forall i | 0 <= i < n + 1 ensures u[i] in t && t[u[i]] == i {
      if i < n { assert u[i] == keys[i]; }
    }
    forall k | k in t ensures 0 <= t[k] < n + 1 && u[t[k]] == k {
      if k != m { assert k in indices; }
    }
  }

  /** Two keys of a level never share an instance. */
  lemma LevelInjective(indices: map<Cell, nat>, keys: seq<Cell>, size: nat, a: Cell, b: Cell)
    requires LevelOk(indices, keys, size) && a in indices && b in indices && indices[a] == indices[b]
    ensures a == b
  {
    assert keys[indices[a]] == a;
  }

  function Total(sizes: seq<nat>): nat {
    if |sizes| == 0 then 0 else Total(sizes[..|sizes| - 1]) + sizes[|sizes| - 1]
  }

  lemma {:induction false} TotalGrows(sizes: seq<nat>, l: nat)
    requires l < |sizes|
    ensures Total(sizes[l := sizes[l] + 1]) == Total(sizes) + 1
  {
    var n := |sizes| - 1;
    var t := sizes[l := sizes[l] + 1];
    if l == n {
      assert t[..n] == sizes[..n];
    } else {
      assert t[..n] == sizes[..n][l := sizes[l] + 1];
      TotalGrows(sizes[..n], l);
    }
  }

  lemma {:induction false} TotalZero(sizes: seq<nat>)
    requires forall i :: 0 <= i < |sizes| ==> sizes[i] == 0
    ensures Total(sizes) == 0
  {
    if |sizes| > 0 { TotalZero(sizes[..|sizes| - 1]); }
  }

  function Sizes<T>(instances: seq<seq<T>>): (r: seq<nat>)
    ensures |r| == |instances|
  {
    seq(|instances|, i requires 0 <= i < |instances| => |instances[i]|)
  }

  // ---------------------------------------------------------------- all levels

  /** A level with these fields holds its share of the contents. */
  ghost predicate Holds<T>(n: nat, l: nat, index: map<Cell, nat>, instance: seq<T>, contents: map<Cell, T>) {
    forall m :: m in index ==>
      && LevelOf(m.number, n) == l && m in contents
      && 0 <= index[m] < |instance| && contents[m] == instance[index[m]]
  }

  ghost predicate LevelAt<T>(n: nat, l: nat, indices: seq<map<Cell, nat>>, instances: seq<seq<T>>,
                       keys: seq<seq<Cell>>, contents: map<Cell, T>)
    requires l < |indices| == |instances| == |keys|
  {
    LevelOk(indices[l], keys[l], |instances[l]|) && Holds(n, l, indices[l], instances[l], contents)
  }

  /** The levels and the plain map contents hold the same cells with the same instances. */
  ghost predicate Consistent<T>(n: nat, indices: seq<map<Cell, nat>>, instances: seq<seq<T>>,
                          keys: seq<seq<Cell>>, contents: map<Cell, T>)
  {
    && |indices| == |instances| == |keys| == n
    && (forall l :: 0 <= l < n ==> LevelAt(n, l, indices, instances, keys, contents))
    && (forall m :: m in contents ==> 0 <= LevelOf(m.number, n) && m in indices[LevelOf(m.number, n)])
    && |contents| == Total(Sizes(instances))
  }

  lemma NothingConsistent<T>(n: nat, indices: seq<map<Cell, nat>>, instances: seq<seq<T>>, keys: seq<seq<Cell>>)
    requires |indices| == |instances| == |keys| == n
    requires forall l :: 0 <= l < n ==> indices[l] == map[] && instances[l] == [] && keys[l] == []
    ensures Consistent(n, indices, instances, keys, map[])
  {
    TotalZero(Sizes(instances));
  }

  /** A new cell at the end of its level. */
  lemma GrownConsistent<T>(n: nat, indices: seq<map<Cell, nat>>, instances: seq<seq<T>>,
                           keys: seq<seq<Cell>>, contents: map<Cell, T>, m: Cell, l: nat, t: T)
    requires Consistent(n, indices, instances, keys, contents)
    requires l < n && LevelOf(m.number, n) == l && m !in indices[l]
    ensures m !in contents
    ensures Consistent(n, indices[l := Extended(indices[l], m, |instances[l]|)], instances[l := instances[l] + [t]],
                       keys[l := keys[l] + [m]], contents[m := t])
  {
    hide LevelOf, Total;
    assert LevelAt(n, l, indices, instances, keys, contents);
    LevelGrows(indices[l], keys[l], m);
    HoldsGrows(n, l, indices[l], instances[l], contents, m, t);
    TotalGrows(Sizes(instances), l);
    hide LevelOk;
    var i2, s2, k2, c2 := indices[l := Extended(indices[l], m, |instances[l]|)], instances[l := instances[l] + [t]],
                          keys[l := keys[l] + [m]], contents[m := t];
    assert Sizes(s2) == Sizes(instances)[l := Sizes(instances)[l] + 1];
    forall k | 0 <= k < n ensures LevelAt(n, k, i2, s2, k2, c2) {
      assert LevelAt(n, k, indices, instances, keys, contents);
    }
  }

  lemma HoldsGrows<T>(n: nat, l: nat, index: map<Cell, nat>, instance: seq<T>, contents: map<Cell, T>, m: Cell, t: T)
    requires Holds(n, l, index, instance, contents) && LevelOf(m.number, n) == l && m !in index
    ensures Holds(n, l, Extended(index, m, |instance|), instance + [t], contents[m := t])
  {
    hide LevelOf;
  }

  class Octree<T(0)> {
    const maxLevel: nat
    const blank: T
    const indices: array<map<Cell, nat>>
    const instances: array<seq<T>>
    ghost var keys: seq<seq<Cell>>
    ghost var contents: map<Cell, T>

    ghost predicate Valid()
      reads this, indices, instances
    {
      && 1 <= maxLevel <= 8 && indices.Length == instances.Length == maxLevel
      && Consistent(maxLevel, indices[..], instances[..], keys, contents)
    }

    constructor (maxLevel: nat, blank: T)
      requires 1 <= maxLevel <= 8
      ensures Valid() && fresh(indices) && fresh(instances)
      ensures this.maxLevel == maxLevel && this.blank == blank && contents == map[]
    {
      this.maxLevel := maxLevel;
      this.blank := blank;
      indices := new map<Cell, nat>[maxLevel](_ => map[]);
      instances := new seq<T>[maxLevel](_ => []);
      keys := seq(maxLevel, _ => []);
      contents := map[];
      new;
      hide Consistent;
      NothingConsistent(maxLevel, indices[..], instances[..], keys);
    }

    method Clear()
      requires Valid()
      modifies this, indices, instances
      ensures Valid() && contents == map[]
    {
      hide Consistent;
      for i := 0 to maxLevel
        modifies indices, instances
        invariant forall l :: 0 <= l < i ==> indices[l] == map[] && instances[l] == []
      {
        instances[i] := [];
        indices[i] := map[];
      }
      keys := seq(maxLevel, _ => []);
      contents := map[];
      NothingConsistent(maxLevel, indices[..], instances[..], keys);
    }

    /** The place of the instance of cell m, made on the first call. A number without a
        non-zero digit has no level, and the source then reads before its arrays. */
    method AssignInstance(m: Cell) returns (l: nat, i: nat)
      requires Valid() && LevelOf(m.number, maxLevel) >= 0
      modifies this, indices, instances
      ensures Valid() && l == LevelOf(m.number, maxLevel)
      ensures m in indices[l] && indices[l][m] == i < |instances[l]|
      ensures contents == if m in old(contents) then old(contents) else old(contents)[m := blank]
      ensures m in contents && contents[m] == instances[l][i]
      ensures forall k :: 0 <= k < maxLevel ==>
        old(instances[k]) <= instances[k] && (k != l ==> instances[k] == old(instances[k]))
    {
      var lv := Level(maxLevel, m.number);
      l := lv;
      Stored(m, l);
      hide Consistent, LevelOf;
      if m in indices[l] {
        i := indices[l][m];
      } else {
        i := |instances[l]|;
        GrownConsistent(maxLevel, indices[..], instances[..], keys, contents, m, l, blank);
        indices[l] := Extended(indices[l], m, i);
        instances[l] := instances[l] + [blank];
        keys := keys[l := keys[l] + [m]];
        contents := contents[m := blank];
      }
    }

    /** The overload for a cell of a level. The instance lands on that level exactly when
        the cell's top digit is not zero; otherwise it lands on a lower one. */
    method AssignAt(level: nat, ix: bv8, iy: bv8, iz: bv8) returns (l: nat, i: nat)
      requires Valid() && level < maxLevel
      requires Ancestor(MortonNumber(ix, iy, iz), maxLevel) == 0
      requires LevelOf(Ancestor(MortonNumber(ix, iy, iz), maxLevel - 1 - level), maxLevel) >= 0
      modifies this, indices, instances
      ensures Valid() && l <= level
      ensures l == level <==> Digit(MortonNumber(ix, iy, iz), maxLevel - 1) != 0
      ensures var m := Cell(Ancestor(MortonNumber(ix, iy, iz), maxLevel - 1 - level));
              contents == if m in old(contents) then old(contents) else old(contents)[m := blank]
    {
      hide LevelOf, Ancestor, Digit, MortonNumber, Shifted;
      var n := MortonNumber(ix, iy, iz);
      AncestorIsShift(n, maxLevel - 1 - level);
      LevelKeptIff(n, maxLevel, level);
      l, i := AssignInstance(Cell(Shifted(n, maxLevel - 1 - level)));
    }

    lemma Stored(m: Cell, l: nat)
      requires Valid() && l == LevelOf(m.number, maxLevel)
      ensures m in contents <==> m in indices[l]
      ensures m in contents ==> 0 <= indices[l][m] < |instances[l]| && contents[m] == instances[l][indices[l][m]]
    {
      hide LevelOf, Total, LevelOk;
      assert LevelAt(maxLevel, l, indices[..], instances[..], keys, contents);
    }

    /** size(): the instances of one level, or of all for -1. */
    method Size(level: int) returns (n: nat)
      requires Valid() && -1 <= level < maxLevel
      ensures n == if level == -1 then |contents| else |instances[level]|
    {
      if level == -1 {
        n := 0;
        ghost var sizes := Sizes(instances[..]);
        for i := 0 to maxLevel
          invariant n == Total(sizes[..i])
        {
          assert sizes[..i + 1][..i] == sizes[..i];
          n := n + |instances[i]|;
        }
        assert sizes[..maxLevel] == sizes;
      } else {
        n := |instances[level]|;
      }
    }

    /** The instance that a reference returned by AssignInstance names is overwritten. */
    method Store(m: Cell, value: T)
      requires Valid() && LevelOf(m.number, maxLevel) >= 0
      modifies this, indices, instances
      ensures Valid() && contents == old(contents)[m := value]
    {
      hide Consistent, LevelOf;
      var l, i := AssignInstance(m);
      StoredConsistent(maxLevel, indices[..], instances[..], keys, contents, m, l, value);
      instances[l] := instances[l][i := value];
      contents := contents[m := value];
      assert contents == old(contents)[m := value];
    }
  }

  lemma StoredConsistent<T>(n: nat, indices: seq<map<Cell, nat>>, instances: seq<seq<T>>,
                            keys: seq<seq<Cell>>, contents: map<Cell, T>, m: Cell, l: nat, t: T)
    requires Consistent(n, indices, instances, keys, contents)
    requires l < n && LevelOf(m.number, n) == l && m in indices[l] && 0 <= indices[l][m] < |instances[l]|
    ensures Consistent(n, indices, instances[l := instances[l][indices[l][m] := t]], keys, contents[m := t])
  {
    hide LevelOf, Total;
    assert LevelAt(n, l, indices, instances, keys, contents);
    var s2, c2 := instances[l := instances[l][indices[l][m] := t]], contents[m := t];
    assert Sizes(s2) == Sizes(instances);
    forall k | 0 <= k < n ensures LevelAt(n, k, indices, s2, keys, c2) {
      assert LevelAt(n, k, indices, instances, keys, contents);
      if k == l {
        forall b | b in indices[l] && indices[l][b] == indices[l][m] ensures b == m {
          LevelInjective(indices[l], keys[l], |keys[l]|, b, m);
        }
      }
    }
  }
}
