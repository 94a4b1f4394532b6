/** Sorted association lists: the meaning of an ordered tree, one step away from a map. */
module SortedEntries {
  import opened CTypes

  type Entry = (Key, Ptr)
  type Entries = seq<Entry>

  ghost predicate Sorted(s: Entries)
  {
    forall i, j :: 0 <= i < j < |s| ==> Less(s[i].0, s[j].0)
  }

  ghost predicate AllBelow(s: Entries, key: Key)
  {
    forall i :: 0 <= i < |s| ==> Less(s[i].0, key)
  }

  ghost predicate AllAbove(s: Entries, key: Key)
  {
    forall i :: 0 <= i < |s| ==> Less(key, s[i].0)
  }

  ghost function ToMap(s: Entries): map<Key, Ptr>
  {
    if s == [] then map[] else ToMap(s[1..])[s[0].0 := s[0].1]
  }

  /** Adds a binding, unless the key is there already. */
  ghost function Added(s: Entries, key: Key, data: Ptr): Entries
  {
    if s == [] || Less(key, s[0].0) then [(key, data)] + s
    else if key == s[0].0 then s
    else [s[0]] + Added(s[1..], key, data)
  }

  /** Drops the binding of key, if there is one. */
  ghost function Removed(s: Entries, key: Key): Entries
  {
    if s == [] then []
    else if key == s[0].0 then s[1..]
    else [s[0]] + Removed(s[1..], key)
  }

  /** The payload bound to key, or a default. */
  ghost function Lookup(s: Entries, key: Key, default: Ptr): Ptr
  {
    if s == [] then default
    else if key == s[0].0 then s[0].1
    else Lookup(s[1..], key, default)
  }

  // ---------- splitting at an entry ----------

  /** In a sorted list cut at x, everything before x is smaller and everything after it larger. */
  lemma SortedSplit(a: Entries, x: Entry, b: Entries)
    ensures Sorted(a + [x] + b) <==> Sorted(a) && Sorted(b) && AllBelow(a, x.0) && AllAbove(b, x.0)
  {
    var s := a + [x] + b;
    if Sorted(s) {
      assert forall i :: 0 <= i < |a| ==> s[i] == a[i];
      assert s[|a|] == x;
      assert forall i :: 0 <= i < |b| ==> s[|a| + 1 + i] == b[i];
    }
    if Sorted(a) && Sorted(b) && AllBelow(a, x.0) && AllAbove(b, x.0) {
      forall i, j | 0 <= i < j < |s| ensures Less(s[i].0, s[j].0) {
        if i < |a| < j {
          LessTransitive(s[i].0, x.0, s[j].0);
        }
      }
    }
  }

  lemma AboveTransitive(b: Entries, low: Key, high: Key)
    requires Less(low, high) && AllAbove(b, high)
    ensures AllAbove(b, low)
  {
    forall i | 0 <= i < |b| ensures Less(low, b[i].0) {
      LessTransitive(low, high, b[i].0);
    }
  }

  lemma BelowTransitive(a: Entries, low: Key, high: Key)
    requires Less(low, high) && AllBelow(a, low)
    ensures AllBelow(a, high)
  {
    forall i | 0 <= i < |a| ensures Less(a[i].0, high) {
      LessTransitive(a[i].0, low, high);
    }
  }

  lemma {:induction false} AddedLeft(a: Entries, x: Entry, b: Entries, key: Key, data: Ptr)
    requires Less(key, x.0)
    ensures Added(a + [x] + b, key, data) == Added(a, key, data) + [x] + b
  {
    if a != [] {
      assert (a + [x] + b)[1..] == a[1..] + [x] + b;
      AddedLeft(a[1..], x, b, key, data);
    }
  }

  lemma {:induction false} AddedRight(a: Entries, x: Entry, b: Entries, key: Key, data: Ptr)
    requires Less(x.0, key) && AllBelow(a, key)
    ensures Added(a + [x] + b, key, data) == a + [x] + Added(b, key, data)
  {
    if a == [] {
      assert a + [x] + b == [x] + b;
      AddedNext(x, b, key, data);
    } else {
      assert a + [x] + b == [a[0]] + (a[1..] + [x] + b);
      AddedNext(a[0], a[1..] + [x] + b, key, data);
      AddedRight(a[1..], x, b, key, data);
      assert [a[0]] + (a[1..] + [x] + Added(b, key, data)) == a + [x] + Added(b, key, data);
    }
  }

  /** Past a smaller entry. */
  lemma AddedNext(x: Entry, s: Entries, key: Key, data: Ptr)
    requires Less(x.0, key)
    ensures Added([x] + s, key, data) == [x] + Added(s, key, data)
  {
    StrcmpSwap(x.0, key);
    StrcmpEqual(x.0, key);
    assert ([x] + s)[1..] == s;
  }

  lemma {:induction false} AddedHere(a: Entries, x: Entry, b: Entries, data: Ptr)
    requires AllBelow(a, x.0)
    ensures Added(a + [x] + b, x.0, data) == a + [x] + b
  {
    LessTotalOrder();
    if a == [] {
      assert a + [x] + b == [x] + b;
    } else {
      assert (a + [x] + b)[1..] == a[1..] + [x] + b;
      AddedHere(a[1..], x, b, data);
      assert a + [x] + b == [a[0]] + (a[1..] + [x] + b);
    }
  }

  lemma {:induction false} AddedAllAbove(s: Entries, key: Key, data: Ptr, low: Key)
    requires AllAbove(s, low) && Less(low, key)
    ensures AllAbove(Added(s, key, data), low)
  {
    if s != [] {
      AddedAllAbove(s[1..], key, data, low);
    }
  }

  lemma {:induction false} AddedSorted(s: Entries, key: Key, data: Ptr)
    requires Sorted(s)
    ensures Sorted(Added(s, key, data))
  {
    LessTotalOrder();
    if s == [] {
    } else {
      assert s == [] + [s[0]] + s[1..];
      SortedSplit([], s[0], s[1..]);
      if Less(key, s[0].0) {
        AboveTransitive(s[1..], key, s[0].0);
        SortedSplit([], (key, data), s);
        assert [] + [(key, data)] + s == [(key, data)] + s;
      } else if Less(s[0].0, key) {
        AddedSorted(s[1..], key, data);
        AddedAllAbove(s[1..], key, data, s[0].0);
        SortedSplit([], s[0], Added(s[1..], key, data));
        assert [] + [s[0]] + Added(s[1..], key, data) == [s[0]] + Added(s[1..], key, data);
      }
    }
  }

  lemma {:induction false} RemovedAbsent(s: Entries, key: Key)
    requires forall i :: 0 <= i < |s| ==> s[i].0 != key
    ensures Removed(s, key) == s
  {
    if s != [] {
      RemovedAbsent(s[1..], key);
    }
  }

  /** Keys other than the one removed stay where they are, on both sides of it. */
  lemma {:induction false} RemovedAppend(a: Entries, b: Entries, key: Key)
    requires forall i :: 0 <= i < |a| ==> a[i].0 != key
    ensures Removed(a + b, key) == a + Removed(b, key)
  {
    if a == [] {
      assert a + b == b;
    } else {
      assert (a + b)[1..] == a[1..] + b;
      RemovedAppend(a[1..], b, key);
    }
  }

  lemma {:induction false} RemovedLeft(a: Entries, b: Entries, key: Key)
    requires forall i :: 0 <= i < |b| ==> b[i].0 != key
    ensures Removed(a + b, key) == Removed(a, key) + b
  {
    if a == [] {
      assert a + b == b;
      RemovedAbsent(b, key);
    } else {
      assert (a + b)[1..] == a[1..] + b;
      RemovedLeft(a[1..], b, key);
    }
  }

  lemma {:induction false} LookupAppend(a: Entries, b: Entries, key: Key, default: Ptr)
    requires forall i :: 0 <= i < |a| ==> a[i].0 != key
    ensures Lookup(a + b, key, default) == Lookup(b, key, default)
  {
    if a == [] {
      assert a + b == b;
    } else {
      assert (a + b)[1..] == a[1..] + b;
      LookupAppend(a[1..], b, key, default);
    }
  }

  lemma {:induction false} LookupLeft(a: Entries, b: Entries, key: Key, default: Ptr)
    requires forall i :: 0 <= i < |b| ==> b[i].0 != key
    ensures Lookup(a + b, key, default) == Lookup(a, key, default)
  {
    if a == [] {
      assert a + b == b;
      if b != [] {
        LookupLeft([], b[1..], key, default);
        assert [] + b[1..] == b[1..];
      }
    } else {
      assert (a + b)[1..] == a[1..] + b;
      LookupLeft(a[1..], b, key, default);
    }
  }

  lemma {:induction false} RemovedAllAbove(s: Entries, key: Key, low: Key)
    requires AllAbove(s, low)
    ensures AllAbove(Removed(s, key), low)
  {
    if s != [] {
      RemovedAllAbove(s[1..], key, low);
    }
  }

  lemma {:induction false} RemovedSorted(s: Entries, key: Key)
    requires Sorted(s)
    ensures Sorted(Removed(s, key))
  {
    if s != [] && key != s[0].0 {
      assert s == [] + [s[0]] + s[1..];
      SortedSplit([], s[0], s[1..]);
      RemovedSorted(s[1..], key);
      RemovedAllAbove(s[1..], key, s[0].0);
      SortedSplit([], s[0], Removed(s[1..], key));
      assert [] + [s[0]] + Removed(s[1..], key) == [s[0]] + Removed(s[1..], key);
    }
  }

  // ---------- removing and looking up in a sorted list split at an entry ----------

  lemma EntriesLeft(a: Entries, x: Entry, b: Entries, key: Key, default: Ptr)
    requires Less(key, x.0) && AllAbove(b, x.0)
    ensures Removed(a + [x] + b, key) == Removed(a, key) + [x] + b
    ensures Lookup(a + [x] + b, key, default) == Lookup(a, key, default)
  {
    LessTotalOrder();
    AboveTransitive(b, key, x.0);
    assert a + [x] + b == a + ([x] + b);
    RemovedLeft(a, [x] + b, key);
    LookupLeft(a, [x] + b, key, default);
  }

  lemma EntriesRight(a: Entries, x: Entry, b: Entries, key: Key, default: Ptr)
    requires Less(x.0, key) && AllBelow(a, x.0)
    ensures Removed(a + [x] + b, key) == a + [x] + Removed(b, key)
    ensures Lookup(a + [x] + b, key, default) == Lookup(b, key, default)
  {
    LessTotalOrder();
    BelowTransitive(a, x.0, key);
    RemovedAppend(a + [x], b, key);
    LookupAppend(a + [x], b, key, default);
  }

  lemma EntriesHere(a: Entries, x: Entry, b: Entries, default: Ptr)
    requires AllBelow(a, x.0)
    ensures Removed(a + [x] + b, x.0) == a + b
    ensures Lookup(a + [x] + b, x.0, default) == x.1
  {
    LessTotalOrder();
    assert a + [x] + b == a + ([x] + b);
    RemovedAppend(a, [x] + b, x.0);
    LookupAppend(a, [x] + b, x.0, default);
  }

  // ---------- what the list operations do to the map ----------

  lemma {:induction false} ToMapKeys(s: Entries, key: Key)
    ensures key in ToMap(s) <==> exists i :: 0 <= i < |s| && s[i].0 == key
  {
    if s != [] {
      ToMapKeys(s[1..], key);
      if exists i :: 0 <= i < |s| && s[i].0 == key {
        var i :| 0 <= i < |s| && s[i].0 == key;
        assert i == 0 || s[1..][i - 1] == s[i];
      }
    }
  }

  lemma {:induction false} ToMapAdded(s: Entries, key: Key, data: Ptr)
    requires Sorted(s)
    ensures ToMap(Added(s, key, data)) ==
            if key in ToMap(s) then ToMap(s) else ToMap(s)[key := data]
  {
    LessTotalOrder();
    ToMapKeys(s, key);
    if s == [] || Less(key, s[0].0) {
      assert ([(key, data)] + s)[1..] == s;
      forall i | 0 <= i < |s| ensures s[i].0 != key {
        if i > 0 {
          LessTransitive(key, s[0].0, s[i].0);
        }
      }
    } else if key != s[0].0 {
      ToMapAdded(s[1..], key, data);
      assert ([s[0]] + Added(s[1..], key, data))[1..] == Added(s[1..], key, data);
    }
  }

  lemma {:induction false} ToMapRemoved(s: Entries, key: Key)
    requires Sorted(s)
    ensures ToMap(Removed(s, key)) == ToMap(s) - {key}
  {
    LessTotalOrder();
    if s != [] {
      if key == s[0].0 {
        ToMapKeys(s[1..], key);
      } else {
        ToMapRemoved(s[1..], key);
        assert ([s[0]] + Removed(s[1..], key))[1..] == Removed(s[1..], key);
      }
    }
  }

  lemma {:induction false} ToMapLookup(s: Entries, key: Key, default: Ptr)
    ensures Lookup(s, key, default) == if key in ToMap(s) then ToMap(s)[key] else default
  {
    if s != [] {
      ToMapLookup(s[1..], key, default);
    }
  }
}
