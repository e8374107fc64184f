/** The std::map inside a bucket: entries in strictly ascending key order. */
module OrderedEntries {

  type Key = seq<bv8>
  type Value = seq<bv8>

  datatype Entry = Entry(key: Key, value: Value)

  datatype Option<T> = None | Some(value: T)

  /** std::string's operator<. */
  predicate Less(a: Key, b: Key) {
    if |b| == 0 then false
    else if |a| == 0 then true
    else if a[0] != b[0] then a[0] < b[0]
    else Less(a[1..], b[1..])
  }

  lemma {:induction false} LessTotal(a: Key, b: Key)
    ensures Less(a, b) || Less(b, a) || a == b
    ensures !(Less(a, b) && Less(b, a)) && (Less(a, b) ==> a != b)
  {
    if |a| > 0 && |b| > 0 && a[0] == b[0] {
      LessTotal(a[1..], b[1..]);
      assert a == [a[0]] + a[1..] && b == [b[0]] + b[1..];
    }
  }

  lemma {:induction false} LessTransitive(a: Key, b: Key, c: Key)
    requires Less(a, b) && Less(b, c)
    ensures Less(a, c)
  {
    if |a| > 0 && a[0] == b[0] == c[0] { LessTransitive(a[1..], b[1..], c[1..]); }
  }

  predicate Sorted(s: seq<Entry>) {
    forall i, j :: 0 <= i < j < |s| ==> Less(s[i].key, s[j].key)
  }

  /** lower_bound: the number of entries before key. */
  function Position(s: seq<Entry>, key: Key): (p: nat)
    ensures p <= |s|
  {
    if |s| == 0 || !Less(s[0].key, key) then 0 else 1 + Position(s[1..], key)
  }

  predicate Has(s: seq<Entry>, key: Key) {
    Position(s, key) < |s| && s[Position(s, key)].key == key
  }

  /** find(), with None for end(). */
  function Get(s: seq<Entry>, key: Key): Option<Value> {
    if Has(s, key) then Some(s[Position(s, key)].value) else None
  }

  /** insert(): an entry with the key stays as it is. */
  function Insert(s: seq<Entry>, key: Key, value: Value): seq<Entry> {
    var p := Position(s, key);
    if Has(s, key) then s else s[..p] + [Entry(key, value)] + s[p..]
  }

  function Erase(s: seq<Entry>, key: Key): seq<Entry>
    requires Has(s, key)
  {
    var p := Position(s, key);
    s[..p] + s[p + 1..]
  }

  function Replace(s: seq<Entry>, key: Key, value: Value): seq<Entry>
    requires Has(s, key)
  {
    s[Position(s, key) := Entry(key, value)]
  }

  /** Position separates the smaller keys from the others. */
  lemma {:induction false} PositionSplits(s: seq<Entry>, key: Key)
    requires Sorted(s)
    ensures forall i :: 0 <= i < Position(s, key) ==> Less(s[i].key, key)
    ensures forall i :: Position(s, key) <= i < |s| ==> !Less(s[i].key, key)
  {
    if |s| > 0 {
      if Less(s[0].key, key) {
        PositionSplits(s[1..], key);
        forall i | 0 <= i < Position(s, key) ensures Less(s[i].key, key) {
          if i > 0 { assert s[i] == s[1..][i - 1]; }
        }
        forall i | Position(s, key) <= i < |s| ensures !Less(s[i].key, key) {
          assert s[i] == s[1..][i - 1];
        }
      } else {
        forall i | 0 <= i < |s| ensures !Less(s[i].key, key) {
          if i > 0 && Less(s[i].key, key) { LessTransitive(s[0].key, s[i].key, key); }
        }
      }
    }
  }

  /** An entry found anywhere is found by Get, and only its own value. */
  lemma GetIff(s: seq<Entry>, key: Key)
    requires Sorted(s)
    ensures Has(s, key) <==> exists i :: 0 <= i < |s| && s[i].key == key
    ensures forall i :: 0 <= i < |s| && s[i].key == key ==> Position(s, key) == i && Get(s, key) == Some(s[i].value)
  {
    PositionSplits(s, key);
    LessTotal(key, key);
    var p := Position(s, key);
    forall i | 0 <= i < |s| && s[i].key == key ensures p == i {
      SortedAt(s, p, i);
    }
  }

  lemma SortedAt(s: seq<Entry>, p: nat, i: nat)
    requires Sorted(s) && p <= i < |s|
    ensures p < i ==> Less(s[p].key, s[i].key)
  {
  }

  lemma InsertSorted(s: seq<Entry>, key: Key, value: Value)
    requires Sorted(s)
    ensures Sorted(Insert(s, key, value))
  {
    hide Less, Position;
    if !Has(s, key) {
      PositionSplits(s, key);
      var p, t := Position(s, key), Insert(s, key, value);
      forall i, j | 0 <= i < j < |t| ensures Less(t[i].key, t[j].key) {
        if i < p && j == p {
          assert t[i] == s[i];
        } else if i == p {
          assert t[j] == s[j - 1];
          AfterPosition(s, key, j - 1);
        } else {
          assert t[i] == s[if i < p then i else i - 1];
          assert t[j] == s[if j < p then j else j - 1];
        }
      }
    }
  }

  lemma AfterPosition(s: seq<Entry>, key: Key, i: nat)
    requires Sorted(s) && !Has(s, key) && Position(s, key) <= i < |s|
    ensures Less(key, s[i].key)
  {
    var p := Position(s, key);
    PositionSplits(s, key);
    LessTotal(s[p].key, key);
    if p < i { LessTransitive(key, s[p].key, s[i].key); }
  }

  lemma KeptAt(s: seq<Entry>, p: nat, e: Entry, i: nat)
    requires p <= |s| && i < |s|
    ensures (s[..p] + [e] + s[p..])[if i < p then i else i + 1] == s[i]
  {
    if i >= p { assert s[p..][i - p] == s[i]; }
  }

  /** What insert does to every lookup: the first value for a key wins. */
  lemma InsertGet(s: seq<Entry>, key: Key, value: Value, k: Key)
    requires Sorted(s)
    ensures Get(Insert(s, key, value), k)
         == if k == key && !Has(s, key) then Some(value) else Get(s, k)
  {
    if !Has(s, key) {
      InsertSorted(s, key, value);
      hide Less, Position, Sorted, Get, Has, Insert;
      var p, t, e := Position(s, key), Insert(s, key, value), Entry(key, value);
      InsertShape(s, key, value);
      if k == key {
        FoundAt(t, k, p);
      } else if Has(s, k) {
        var i := FoundIndex(s, k);
        KeptAt(s, p, e, i);
        FoundAt(t, k, if i < p then i else i + 1);
      } else {
        if Has(t, k) {
          var i := FoundIndex(t, k);
          KeptAt(s, p, e, if i < p then i else i - 1);
          FoundAt(s, k, if i < p then i else i - 1);
        }
        NotFound(s, k);
        NotFound(t, k);
      }
    }
  }

  lemma InsertShape(s: seq<Entry>, key: Key, value: Value)
    requires !Has(s, key)
    ensures var p, t := Position(s, key), Insert(s, key, value);
            p <= |s| && t == s[..p] + [Entry(key, value)] + s[p..] && t[p] == Entry(key, value)
  {
  }

  lemma FoundAt(s: seq<Entry>, key: Key, i: nat)
    requires Sorted(s) && i < |s| && s[i].key == key
    ensures Has(s, key) && Get(s, key) == Some(s[i].value)
  {
    GetIff(s, key);
  }

  lemma FoundIndex(s: seq<Entry>, key: Key) returns (i: nat)
    requires Has(s, key)
    ensures i < |s| && s[i].key == key && Get(s, key) == Some(s[i].value)
  {
    i := Position(s, key);
  }

  lemma NotFound(s: seq<Entry>, key: Key)
    ensures !Has(s, key) ==> Get(s, key) == None
  {
  }

  lemma EraseSorted(s: seq<Entry>, key: Key)
    requires Sorted(s) && Has(s, key)
    ensures Sorted(Erase(s, key))
  {
    var p, t := Position(s, key), Erase(s, key);
    forall i, j | 0 <= i < j < |t| ensures Less(t[i].key, t[j].key) {
      assert t[i] == s[if i < p then i else i + 1];
      assert t[j] == s[if j < p then j else j + 1];
    }
  }

  lemma EraseGet(s: seq<Entry>, key: Key, k: Key)
    requires Sorted(s) && Has(s, key)
    ensures Get(Erase(s, key), k) == if k == key then None else Get(s, k)
  {
    EraseSorted(s, key);
    hide Less, Position, Sorted, Get, Has, Erase;
    var p, t := Position(s, key), Erase(s, key);
    EraseShape(s, key);
    if Has(t, k) {
      var i := FoundIndex(t, k);
      ErasedAt(s, p, if i < p then i else i + 1);
      FoundAt(s, k, if i < p then i else i + 1);
      if k == key { OnlyAt(s, key, if i < p then i else i + 1); }
    } else {
      if Has(s, k) && k != key {
        var i := FoundIndex(s, k);
        ErasedAt(s, p, i);
        FoundAt(t, k, if i < p then i else i - 1);
      }
      NotFound(s, k);
      NotFound(t, k);
    }
  }

  lemma EraseShape(s: seq<Entry>, key: Key)
    requires Has(s, key)
    ensures var p := Position(s, key);
            p < |s| && s[p].key == key && Erase(s, key) == s[..p] + s[p + 1..]
  {
  }

  lemma ErasedAt(s: seq<Entry>, p: nat, i: nat)
    requires p < |s| && i < |s| && i != p
    ensures (s[..p] + s[p + 1..])[if i < p then i else i - 1] == s[i]
  {
  }

  lemma OnlyAt(s: seq<Entry>, key: Key, i: nat)
    requires Sorted(s) && i < |s| && s[i].key == key
    ensures i == Position(s, key)
  {
    GetIff(s, key);
  }

  lemma ReplaceSorted(s: seq<Entry>, key: Key, value: Value)
    requires Sorted(s) && Has(s, key)
    ensures Sorted(Replace(s, key, value))
  {
    var t := Replace(s, key, value);
    forall i, j | 0 <= i < j < |t| ensures Less(t[i].key, t[j].key) {
      assert t[i].key == s[i].key && t[j].key == s[j].key;
    }
  }

  lemma ReplaceGet(s: seq<Entry>, key: Key, value: Value, k: Key)
    requires Sorted(s) && Has(s, key)
    ensures Get(Replace(s, key, value), k) == if k == key then Some(value) else Get(s, k)
  {
    ReplaceSorted(s, key, value);
    var p, t := Position(s, key), Replace(s, key, value);
    GetIff(s, k);
    GetIff(t, k);
    assert t[p] == Entry(key, value);
    forall i | 0 <= i < |s| && i != p ensures t[i] == s[i] {
    }
    forall i | 0 <= i < |s| ensures t[i].key == s[i].key {
    }
  }
}
