/** The bucketed string map of misc/HashMap.ipp. */
module HashMapModule {
  import opened OrderedEntries

  const BUCKET_SIZE: nat := 1024 * 1024

  // ---------------------------------------------------------------- hash()

  /** static_cast<std::size_t>(char) for a signed char. */
  function Widened(c: bv8): bv64 {
    if c & 0x80 != 0 then 0xffff_ffff_ffff_ff00 | (c as bv64) else c as bv64
  }

  function Stirred(seed: bv64, c: bv8): bv64 {
    seed ^ (Widened(c) + 0x9e37_79b9 + (seed << 6) + (seed >> 2))
  }

  function Hash(value: Key): bv64 {
    if |value| == 0 then 0 else Stirred(Hash(value[..|value| - 1]), value[|value| - 1])
  }

  /** "a", "ab" and the byte 0xff, which char widens as -1. */
  lemma HashExamples()
    ensures Hash([0x61]) == 0x0000_0000_9e37_7a1a && Hash([0x61, 0x62]) == 0x0000_0028_cd94_a53b
    ensures Hash([0xff]) == 0x0000_0000_9e37_79b8
  {
    var k := [0x61, 0x62];
    assert k[..1] == [0x61] && [0x61][..0] == [] && [0xff][..0] == [];
    assert Stirred(0, 0x61) == 0x0000_0000_9e37_7a1a && Stirred(0, 0xff) == 0x0000_0000_9e37_79b8;
    assert Hash([0x61]) == Stirred(Hash([]), 0x61);
    assert Hash(k) == Stirred(Hash([0x61]), 0x62);
    assert Hash([0xff]) == Stirred(Hash([]), 0xff);
    assert Stirred(0x0000_0000_9e37_7a1a, 0x62) == 0x0000_0028_cd94_a53b;
  }

  function BucketOf(key: Key): (i: nat)
    ensures i < BUCKET_SIZE
  {
    Hash(key) as nat % BUCKET_SIZE
  }

  method ComputeHash(value: Key) returns (seed: bv64)
    ensures seed == Hash(value)
  {
    hide Stirred;
    seed := 0;
    for i := 0 to |value|
      invariant seed == Hash(value[..i])
    {
      assert value[..i + 1][..i] == value[..i];
      seed := Stirred(seed, value[i]);
    }
    assert value[..|value|] == value;
  }

  // ---------------------------------------------------------------- tables

  type Table = t: seq<seq<Entry>> | |t| == BUCKET_SIZE witness seq(BUCKET_SIZE, _ => [])

  predicate BucketOk(s: seq<Entry>, i: nat) {
    Sorted(s) && forall j :: 0 <= j < |s| ==> BucketOf(s[j].key) == i
  }

  predicate TableOk(t: Table) {
    forall i :: 0 <= i < BUCKET_SIZE ==> BucketOk(t[i], i)
  }

  function Lookup(t: Table, key: Key): Option<Value> {
    Get(t[BucketOf(key)], key)
  }

  function Found(m: map<Key, Value>, key: Key): Option<Value> {
    if key in m then Some(m[key]) else None
  }

  /** The table and the plain map give the same answer for every key. */
  ghost predicate Agrees(t: Table, m: map<Key, Value>) {
    forall key :: Lookup(t, key) == Found(m, key)
  }

  /** A bucket is changed for one key only. */
  lemma UpdateAgrees(t: Table, m: map<Key, Value>, key: Key, s: seq<Entry>, n: map<Key, Value>)
    requires TableOk(t) && Agrees(t, m) && BucketOk(s, BucketOf(key))
    requires forall k :: k != key ==> Get(s, k) == Get(t[BucketOf(key)], k) && Found(n, k) == Found(m, k)
    requires Get(s, key) == Found(n, key)
    ensures TableOk(t[BucketOf(key) := s]) && Agrees(t[BucketOf(key) := s], n)
  {
    hide Get, BucketOf, BucketOk;
    var u: Table := t[BucketOf(key) := s];
    forall k ensures Lookup(u, k) == Found(n, k) {
      assert Lookup(t, k) == Found(m, k);
    }
  }

  lemma InsertKeepsBucket(s: seq<Entry>, key: Key, value: Value)
    requires BucketOk(s, BucketOf(key))
    ensures BucketOk(Insert(s, key, value), BucketOf(key))
  {
    InsertSorted(s, key, value);
    hide BucketOf, Sorted, Position;
    var p, t := Position(s, key), Insert(s, key, value);
    if !Has(s, key) {
      forall j | 0 <= j < |t| ensures BucketOf(t[j].key) == BucketOf(key) {
        if j != p { assert t[j] == s[if j < p then j else j - 1]; }
      }
    }
  }

  lemma EraseKeepsBucket(s: seq<Entry>, key: Key)
    requires BucketOk(s, BucketOf(key)) && Has(s, key)
    ensures BucketOk(Erase(s, key), BucketOf(key))
  {
    EraseSorted(s, key);
    hide BucketOf, Sorted, Position;
    var p, t := Position(s, key), Erase(s, key);
    forall j | 0 <= j < |t| ensures BucketOf(t[j].key) == BucketOf(key) {
      assert t[j] == s[if j < p then j else j + 1];
    }
  }

  lemma ReplaceKeepsBucket(s: seq<Entry>, key: Key, value: Value)
    requires BucketOk(s, BucketOf(key)) && Has(s, key)
    ensures BucketOk(Replace(s, key, value), BucketOf(key))
  {
    ReplaceSorted(s, key, value);
  }

  // ---------------------------------------------------------------- iteration

  /** The entries of the first n buckets, one after the other. */
  function Flat(t: seq<seq<Entry>>, n: nat): seq<Entry>
    requires n <= |t|
  {
    if n == 0 then [] else Flat(t, n - 1) + t[n - 1]
  }

  /** An iterator: a bucket number and a std::map iterator into the bucket owner. */
  datatype Iter = Iter(bnum: nat, owner: nat, pos: nat)

  function EndOf(t: Table): Iter {
    Iter(BUCKET_SIZE, BUCKET_SIZE - 1, |t[BUCKET_SIZE - 1]|)
  }

  /** The iterator stands on an entry. */
  predicate On(t: Table, it: Iter) {
    it.bnum < BUCKET_SIZE && it.owner == it.bnum && it.pos < |t[it.bnum]|
  }

  /** How many entries come before it. */
  function Rank(t: Table, it: Iter): nat
    requires it.bnum <= BUCKET_SIZE
  {
    |Flat(t, it.bnum)| + if it.bnum < BUCKET_SIZE then it.pos else 0
  }

  /** The iterator that stands on entry number r, or the end. */
  predicate Stands(t: Table, it: Iter, r: nat) {
    if r < |Flat(t, BUCKET_SIZE)| then On(t, it) && Rank(t, it) == r else it == EndOf(t)
  }

  lemma {:induction false} FlatGrows(t: seq<seq<Entry>>, m: nat, n: nat)
    requires m <= n <= |t|
    ensures |Flat(t, m)| <= |Flat(t, n)| && Flat(t, n)[..|Flat(t, m)|] == Flat(t, m)
    ensures m < n ==> |Flat(t, m)| + |t[m]| <= |Flat(t, n)|
    ensures m < n ==> forall j :: 0 <= j < |t[m]| ==> Flat(t, n)[|Flat(t, m)| + j] == t[m][j]
    decreases n - m
  {
    if m < n { FlatGrows(t, m, n - 1); }
  }

  /** Distinct places hold distinct keys, and the place of an entry is its bucket. */
  lemma {:induction false} FlatDistinct(t: Table, n: nat)
    requires TableOk(t) && n <= BUCKET_SIZE
    ensures forall i :: 0 <= i < |Flat(t, n)| ==> BucketOf(Flat(t, n)[i].key) < n
    ensures forall i, j :: 0 <= i < j < |Flat(t, n)| ==> Flat(t, n)[i].key != Flat(t, n)[j].key
  {
    if n > 0 {
      FlatDistinct(t, n - 1);
      hide BucketOf, Less;
      var f, s := Flat(t, n - 1), t[n - 1];
      assert BucketOk(s, n - 1);
      forall i, j | 0 <= i < j < |s| ensures s[i].key != s[j].key {
        LessTotal(s[i].key, s[j].key);
      }
    }
  }

  /** Over the whole table every entry of the plain map occurs once, with its value,
      and nothing else occurs. */
  lemma FlatIsContents(t: Table, m: map<Key, Value>)
    requires TableOk(t) && Agrees(t, m)
    ensures forall i, j :: 0 <= i < j < |Flat(t, BUCKET_SIZE)| ==>
              Flat(t, BUCKET_SIZE)[i].key != Flat(t, BUCKET_SIZE)[j].key
    ensures forall e :: e in Flat(t, BUCKET_SIZE) <==> e.key in m && m[e.key] == e.value
  {
    FlatDistinct(t, BUCKET_SIZE);
    forall e ensures e in Flat(t, BUCKET_SIZE) <==> e.key in m && m[e.key] == e.value {
      var i := BucketOf(e.key);
      assert BucketOk(t[i], i);
      GetIff(t[i], e.key);
      assert Lookup(t, e.key) == Found(m, e.key);
      hide BucketOf, Position, Less, Sorted;
      if e in Flat(t, BUCKET_SIZE) {
        InBucket(t, BUCKET_SIZE, e);
      }
      if e.key in m && m[e.key] == e.value {
        var p := Position(t[i], e.key);
        assert t[i][p] == e;
        FlatGrows(t, i, BUCKET_SIZE);
        assert Flat(t, BUCKET_SIZE)[|Flat(t, i)| + p] == e;
      }
    }
  }

  lemma {:induction false} InBucket(t: Table, n: nat, e: Entry)
    requires TableOk(t) && n <= BUCKET_SIZE && e in Flat(t, n)
    ensures e in t[BucketOf(e.key)]
  {
    if e in t[n - 1] {
      assert BucketOk(t[n - 1], n - 1);
    } else {
      InBucket(t, n - 1, e);
    }
  }

  // ---------------------------------------------------------------- the object

  class HashMap {
    const bucket: array<seq<Entry>>
    ghost var contents: map<Key, Value>

    ghost predicate Valid()
      reads this, bucket
    {
      && bucket.Length == BUCKET_SIZE
      && TableOk(bucket[..])
      && Agrees(bucket[..], contents)
    }

    constructor ()
      ensures Valid() && fresh(bucket) && contents == map[]
    {
      hide BucketOf;
      bucket := new seq<Entry>[BUCKET_SIZE](_ => []);
      contents := map[];
    }

    /** The bucket of key becomes s. */
    method SetBucket(key: Key, s: seq<Entry>, ghost m: map<Key, Value>)
      requires Valid() && BucketOk(s, BucketOf(key))
      requires forall k :: k != key ==>
        Get(s, k) == Get(bucket[BucketOf(key)], k) && Found(m, k) == Found(contents, k)
      requires Get(s, key) == Found(m, key)
      modifies this, bucket
      ensures Valid() && contents == m
      ensures bucket[..] == old(bucket[..])[BucketOf(key) := s]
    {
      hide BucketOf, Get, Found, TableOk, Agrees, BucketOk;
      UpdateAgrees(bucket[..], contents, key, s, m);
      var seed := ComputeHash(key);
      HashBucket(key);
      bucket[seed as nat % BUCKET_SIZE] := s;
      contents := m;
    }

    static lemma HashBucket(key: Key)
      ensures BucketOf(key) == Hash(key) as nat % BUCKET_SIZE
    {
    }

    /** The bucket that the key hashes to. */
    method BucketFor(key: Key) returns (s: seq<Entry>)
      requires Valid()
      ensures s == bucket[BucketOf(key)] && BucketOk(s, BucketOf(key))
      ensures Get(s, key) == Found(contents, key)
    {
      hide BucketOk, Get, Found;
      var seed := ComputeHash(key);
      HashBucket(key);
      hide BucketOf;
      s := bucket[seed as nat % BUCKET_SIZE];
      assert BucketOk(bucket[..][BucketOf(key)], BucketOf(key));
      assert Lookup(bucket[..], key) == Found(contents, key);
    }

    /** The first value added for a key wins. */
    method Add(key: Key, value: Value)
      requires Valid()
      modifies this, bucket
      ensures Valid()
      ensures contents == if key in old(contents) then old(contents) else old(contents)[key := value]
    {
      var s := BucketFor(key);
      InsertKeepsBucket(s, key, value);
      forall k ensures Get(Insert(s, key, value), k) == if k == key && !Has(s, key) then Some(value) else Get(s, k) {
        InsertGet(s, key, value, k);
      }
      hide BucketOf, BucketOk, Insert;
      SetBucket(key, Insert(s, key, value), if key in contents then contents else contents[key := value]);
    }

    /** The key must be present: the source dereferences what find() returns. */
    method Remove(key: Key) returns (ret: Value)
      requires Valid() && key in contents
      modifies this, bucket
      ensures Valid()
      ensures ret == old(contents)[key] && contents == old(contents) - {key}
    {
      var s := BucketFor(key);
      assert Has(s, key);
      EraseKeepsBucket(s, key);
      forall k ensures Get(Erase(s, key), k) == if k == key then None else Get(s, k) {
        EraseGet(s, key, k);
      }
      hide BucketOf, BucketOk, Erase;
      ret := s[Position(s, key)].value;
      SetBucket(key, Erase(s, key), contents - {key});
    }

    /** operator[] read: a missing key is inserted with an empty value. */
    method Index(key: Key) returns (ret: Value)
      requires Valid()
      modifies this, bucket
      ensures Valid()
      ensures contents == if key in old(contents) then old(contents) else old(contents)[key := []]
      ensures ret == contents[key]
    {
      Add(key, []);
      var s := BucketFor(key);
      ret := s[Position(s, key)].value;
    }

    /** operator[] used as the target of an assignment. */
    method Assign(key: Key, value: Value)
      requires Valid()
      modifies this, bucket
      ensures Valid() && contents == old(contents)[key := value]
    {
      ghost var m := contents;
      Add(key, []);
      var s := BucketFor(key);
      assert Has(s, key);
      ReplaceKeepsBucket(s, key, value);
      forall k ensures Get(Replace(s, key, value), k) == if k == key then Some(value) else Get(s, k) {
        ReplaceGet(s, key, value, k);
      }
      hide BucketOf, BucketOk, Replace;
      SetBucket(key, Replace(s, key, value), contents[key := value]);
    }

    method Clear()
      requires Valid()
      modifies this, bucket
      ensures Valid() && contents == map[]
    {
      hide BucketOf;
      for i := 0 to BUCKET_SIZE
        modifies bucket
        invariant forall k :: 0 <= k < i ==> bucket[k] == []
      {
        bucket[i] := [];
      }
      contents := map[];
    }

    method Begin() returns (it: Iter)
      requires Valid()
      ensures contents != map[] ==> Stands(bucket[..], it, 0)
      ensures contents == map[] ==> it == Iter(BUCKET_SIZE - 1, BUCKET_SIZE - 1, 0) && it != EndOf(bucket[..])
    {
      EmptyIff(bucket[..], contents);
      hide BucketOf, TableOk, Agrees;
      ghost var t: Table := bucket[..];
      for i := 0 to BUCKET_SIZE
        invariant |Flat(t, i)| == 0
      {
        if |bucket[i]| != 0 {
          FlatGrows(t, i, BUCKET_SIZE);
          it := Iter(i, i, 0);
          return;
        }
      }
      it := Iter(BUCKET_SIZE - 1, BUCKET_SIZE - 1, |bucket[BUCKET_SIZE - 1]|);
      FlatGrows(t, BUCKET_SIZE - 1, BUCKET_SIZE);
    }

    static lemma EmptyIff(t: Table, m: map<Key, Value>)
      requires TableOk(t) && Agrees(t, m)
      ensures |Flat(t, BUCKET_SIZE)| == 0 <==> m == map[]
    {
      hide *;
      FlatIsContents(t, m);
      var f := Flat(t, BUCKET_SIZE);
      if m != map[] {
        var k :| k in m;
        assert Entry(k, m[k]) in f;
      }
      if |f| > 0 {
        assert f[0] in f;
      }
    }

    method End() returns (it: Iter)
      requires Valid()
      ensures it == EndOf(bucket[..])
    {
      it := Iter(BUCKET_SIZE, BUCKET_SIZE - 1, |bucket[BUCKET_SIZE - 1]|);
    }

    /** An iterator on the key, or the end. */
    method At(key: Key) returns (it: Iter)
      requires Valid()
      ensures key in contents ==>
        On(bucket[..], it) && bucket[it.bnum][it.pos] == Entry(key, contents[key])
      ensures key !in contents ==> it == EndOf(bucket[..])
    {
      var s := BucketFor(key);
      var seed := ComputeHash(key);
      HashBucket(key);
      hide BucketOf, TableOk, Agrees;
      var bnum := seed as nat % BUCKET_SIZE;
      if Has(s, key) {
        it := Iter(bnum, bnum, Position(s, key));
      } else {
        it := Iter(BUCKET_SIZE, BUCKET_SIZE - 1, |bucket[BUCKET_SIZE - 1]|);
      }
    }

    /** operator++ steps to the next entry in bucket order, or to the end. */
    method Next(it: Iter) returns (next: Iter)
      requires Valid() && On(bucket[..], it)
      ensures Stands(bucket[..], next, Rank(bucket[..], it) + 1)
    {
      hide BucketOf, TableOk, Agrees;
      ghost var t: Table := bucket[..];
      next := it.(pos := it.pos + 1);
      FlatGrows(t, it.bnum, BUCKET_SIZE);
      if next.pos == |bucket[it.bnum]| {
        next := next.(bnum := next.bnum + 1);
        while next.bnum < BUCKET_SIZE
          invariant it.bnum < next.bnum <= BUCKET_SIZE
          invariant next.owner == next.bnum - 1 && next.pos == |t[next.owner]|
          invariant |Flat(t, next.bnum)| == Rank(t, it) + 1
          decreases BUCKET_SIZE - next.bnum
        {
          FlatGrows(t, next.bnum, BUCKET_SIZE);
          next := next.(owner := next.bnum, pos := 0);
          if next.pos != |bucket[next.bnum]| {
            return;
          }
          next := next.(bnum := next.bnum + 1);
        }
      }
    }

    /** The loop of every client: from begin() to end(). A map with entries is visited
        entry by entry, each once. */
    method Traverse() returns (visited: seq<Entry>)
      requires Valid() && contents != map[]
      ensures visited == Flat(bucket[..], BUCKET_SIZE)
      ensures forall e :: e in visited <==> e.key in contents && contents[e.key] == e.value
      ensures forall i, j :: 0 <= i < j < |visited| ==> visited[i].key != visited[j].key
    {
      visited := VisitAll();
      FlatIsContents(bucket[..], contents);
    }

    method VisitAll() returns (visited: seq<Entry>)
      requires Valid() && contents != map[]
      ensures visited == Flat(bucket[..], BUCKET_SIZE)
    {
      hide BucketOf, TableOk, Agrees, Flat;
      ghost var t: Table := bucket[..];
      ghost var f := Flat(t, BUCKET_SIZE);
      visited := [];
      var it := Begin();
      var end := End();
      while it != end
        invariant |visited| <= |f| && visited == f[..|visited|]
        invariant Stands(t, it, |visited|)
        decreases |f| - |visited|
      {
        NotYet(t, it, |visited|);
        FlatGrows(t, it.bnum, BUCKET_SIZE);
        visited := visited + [bucket[it.bnum][it.pos]];
        it := Next(it);
      }
      AtTheEnd(t, |visited|);
    }

    static lemma NotYet(t: Table, it: Iter, r: nat)
      requires Stands(t, it, r) && it != EndOf(t)
      ensures r < |Flat(t, BUCKET_SIZE)| && On(t, it) && r == |Flat(t, it.bnum)| + it.pos
    {
    }

    static lemma AtTheEnd(t: Table, r: nat)
      requires Stands(t, EndOf(t), r) && r <= |Flat(t, BUCKET_SIZE)|
      ensures r == |Flat(t, BUCKET_SIZE)|
    {
    }
  }
}
