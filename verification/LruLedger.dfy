/**
 The LRU cache judged by its answers: over any run of lru_add and lru_check, what a lookup yields
 and which entry is the least recently used follow from a ledger of the calls and their answers.
 */
module LruLedger {
  import opened CTypes
  import opened LruSpec

  datatype Call = Adding(key: Key, payload: Ptr) | Checking(key: Key)

  /** A call with what it returned: the code, and the payload if lru_check provided one. */
  datatype Line = Line(call: Call, code: int, payload: Option<Ptr>)

  ghost function Perform(dim: nat, v: Cache, call: Call): (Cache, Line)
  {
    match call
    case Adding(key, payload) =>
      var (w, code) := Add(dim, v, key, payload);
      (w, Line(call, code, None))
    case Checking(key) =>
      var (w, code, payload) := Check(v, key);
      (w, Line(call, code, payload))
  }

  /** The cache and the ledger after a run on a new cache. */
  ghost function Run(dim: nat, calls: seq<Call>): (Cache, seq<Line>)
  {
    if calls == [] then ([], [])
    else
      var (v, ledger) := Run(dim, calls[..|calls| - 1]);
      var (w, line) := Perform(dim, v, calls[|calls| - 1]);
      (w, ledger + [line])
  }

  // ---------- what the ledger says ----------

  /** The payload of the latest lru_add of key that succeeded. */
  ghost function LatestStored(ledger: seq<Line>, key: Key): Option<Ptr>
  {
    if ledger == [] then None
    else
      var n := |ledger| - 1;
      if ledger[n].call.Adding? && ledger[n].call.key == key && ledger[n].code == LRU_OK then
        Some(ledger[n].call.payload)
      else LatestStored(ledger[..n], key)
  }

  /** The latest line in which a call on key succeeded, or -1. */
  ghost function LastSuccess(ledger: seq<Line>, key: Key): (i: int)
    ensures -1 <= i < |ledger|
  {
    if ledger == [] then -1
    else
      var n := |ledger| - 1;
      if ledger[n].call.key == key && ledger[n].code == LRU_OK then n else LastSuccess(ledger[..n], key)
  }

  /** Entry i holds what was stored for its key last. */
  ghost predicate StoredOk(v: Cache, ledger: seq<Line>, i: int)
  {
    0 <= i < |v| ==> LatestStored(ledger, v[i].0) == Some(v[i].1)
  }

  /** Entries are in the order of their last success. */
  ghost predicate OrderOk(v: Cache, ledger: seq<Line>, i: int, j: int)
  {
    0 <= i < j < |v| ==> LastSuccess(ledger, v[i].0) > LastSuccess(ledger, v[j].0)
  }

  ghost predicate Explains(dim: nat, v: Cache, ledger: seq<Line>)
  {
    && ValidCache(dim, v)
    && (forall i :: StoredOk(v, ledger, i))
    && (forall i, j :: OrderOk(v, ledger, i, j))
  }

  // ---------- every call keeps it so ----------

  /** A line that records no success for key changes nothing for it. */
  lemma OtherLine(ledger: seq<Line>, line: Line, key: Key)
    requires line.call.key != key || line.code != LRU_OK
    ensures LatestStored(ledger + [line], key) == LatestStored(ledger, key)
    ensures LastSuccess(ledger + [line], key) == LastSuccess(ledger, key)
  {
    assert (ledger + [line])[..|ledger|] == ledger;
  }

  /** A success of key is the latest of all, and stores what lru_add was given. */
  lemma OwnLine(ledger: seq<Line>, line: Line, key: Key)
    requires line.call.key == key && line.code == LRU_OK
    ensures LastSuccess(ledger + [line], key) == |ledger|
    ensures LatestStored(ledger + [line], key)
         == if line.call.Adding? then Some(line.call.payload) else LatestStored(ledger, key)
  {
    assert (ledger + [line])[..|ledger|] == ledger;
  }

  /** Entries of a cache whose order is kept, after a line that is no success for any of them. */
  lemma SameExplained(dim: nat, v: Cache, ledger: seq<Line>, w: Cache, line: Line)
    requires Explains(dim, v, ledger) && w <= v && line.code != LRU_OK
    ensures Explains(dim, w, ledger + [line])
  {
    forall i ensures StoredOk(w, ledger + [line], i) {
      assert StoredOk(v, ledger, i);
      if 0 <= i < |w| { OtherLine(ledger, line, w[i].0); }
    }
    forall i, j ensures OrderOk(w, ledger + [line], i, j) {
      assert OrderOk(v, ledger, i, j);
      if 0 <= i < j < |w| { OtherLine(ledger, line, w[i].0); OtherLine(ledger, line, w[j].0); }
    }
  }

  /** A new entry in front of the first ones. */
  lemma AddExplained(dim: nat, v: Cache, ledger: seq<Line>, w: Cache, key: Key, payload: Ptr)
    requires Explains(dim, v, ledger) && w <= v && |w| < dim && !Has(w, key)
    ensures Explains(dim, [(key, payload)] + w, ledger + [Line(Adding(key, payload), LRU_OK, None)])
  {
    var line, x := Line(Adding(key, payload), LRU_OK, None), [(key, payload)] + w;
    forall i | 0 < i < |x| ensures x[i] == v[i - 1] && x[i].0 != key {
      assert x[i] == w[i - 1];
    }
    OwnLine(ledger, line, key);
    forall i ensures StoredOk(x, ledger + [line], i) {
      assert StoredOk(v, ledger, i - 1);
      if 0 < i < |x| { OtherLine(ledger, line, x[i].0); }
    }
    forall i, j ensures OrderOk(x, ledger + [line], i, j) {
      assert OrderOk(v, ledger, i - 1, j - 1);
      if 0 <= i < j < |x| {
        OtherLine(ledger, line, x[j].0);
        if i > 0 { OtherLine(ledger, line, x[i].0); }
      }
    }
  }

  /** Where entry j of ToFront(v, at) comes from. */
  ghost function Source(at: nat, j: nat): nat
  {
    if j == 0 then at else if j <= at then j - 1 else j
  }

  lemma CheckExplained(dim: nat, v: Cache, ledger: seq<Line>, at: nat)
    requires Explains(dim, v, ledger) && at < |v|
    ensures Explains(dim, ToFront(v, at), ledger + [Line(Checking(v[at].0), LRU_OK, Some(v[at].1))])
  {
    var key := v[at].0;
    var line, x := Line(Checking(key), LRU_OK, Some(v[at].1)), ToFront(v, at);
    forall j | 0 <= j < |x| ensures x[j] == v[Source(at, j)] && (j > 0 ==> x[j].0 != key) {
    }
    OwnLine(ledger, line, key);
    forall i ensures StoredOk(x, ledger + [line], i) {
      if 0 <= i < |x| {
        assert StoredOk(v, ledger, Source(at, i));
        if i > 0 { OtherLine(ledger, line, x[i].0); }
      }
    }
    forall i, j ensures OrderOk(x, ledger + [line], i, j) {
      if 0 <= i < j < |x| {
        assert OrderOk(v, ledger, Source(at, i), Source(at, j));
        OtherLine(ledger, line, x[j].0);
        if i > 0 { OtherLine(ledger, line, x[i].0); }
      }
    }
  }

  lemma PerformExplained(dim: nat, v: Cache, ledger: seq<Line>, call: Call)
    requires Explains(dim, v, ledger)
    ensures var (w, line) := Perform(dim, v, call); Explains(dim, w, ledger + [line])
  {
    match call
    case Adding(key, payload) =>
      var w := MakeRoom(dim, v);
      if Has(w, key) {
        SameExplained(dim, v, ledger, w, Line(call, LRU_DUPLICATED_ELEMENT, None));
      } else {
        AddExplained(dim, v, ledger, w, key, payload);
      }
    case Checking(key) =>
      if Has(v, key) {
        CheckExplained(dim, v, ledger, Find(v, key));
      } else {
        SameExplained(dim, v, ledger, v, Line(call, LRU_ELEMENT_NOT_FOUND, None));
      }
  }

  lemma {:induction false} RunExplained(dim: nat, calls: seq<Call>)
    requires dim > 0
    ensures Explains(dim, Run(dim, calls).0, Run(dim, calls).1)
  {
    if calls != [] {
      var (v, ledger) := Run(dim, calls[..|calls| - 1]);
      RunExplained(dim, calls[..|calls| - 1]);
      PerformExplained(dim, v, ledger, calls[|calls| - 1]);
    }
  }

  // ---------- what follows ----------

  /**
   After any run lru_check succeeds exactly on the keys in the cache, and then provides what the
   latest successful lru_add of the key was given; otherwise it provides nothing.
   */
  lemma CheckAnswers(dim: nat, calls: seq<Call>, key: Key)
    requires dim > 0
    ensures var (v, ledger) := Run(dim, calls);
            var line := Perform(dim, v, Checking(key)).1;
            && line.code == (if exists i :: 0 <= i < |v| && v[i].0 == key then LRU_OK else LRU_ELEMENT_NOT_FOUND)
            && line.payload == (if line.code == LRU_OK then LatestStored(ledger, key) else None)
            && (line.code == LRU_OK ==> line.payload.Some?)
  {
    var (v, ledger) := Run(dim, calls);
    RunExplained(dim, calls);
    assert StoredOk(v, ledger, Find(v, key));
  }

  /** After any run lru_add of a key that is not in the cache succeeds, and once it did a lookup provides the payload. */
  lemma AddAnswers(dim: nat, calls: seq<Call>, key: Key, payload: Ptr)
    requires dim > 0
    ensures var v := Run(dim, calls).0;
            var (w, line) := Perform(dim, v, Adding(key, payload));
            && (!Has(v, key) ==> line.code == LRU_OK)
            && (line.code == LRU_OK ==> Check(w, key) == (w, LRU_OK, Some(payload)))
  {
    var v := Run(dim, calls).0;
    var room, x := MakeRoom(dim, v), [(key, payload)] + MakeRoom(dim, v);
    assert Find(x, key) == 0 && ToFront(x, 0) == x;
    if Has(room, key) {
      assert v[Find(room, key)].0 == key;
    }
  }

  lemma StillHas(room: Cache, w: Cache, i: nat, key: Key, payload: Ptr)
    requires i < |room| && (w == room || w == [(key, payload)] + room)
    ensures Has(w, room[i].0)
  {
    assert w[if w == room then i else i + 1].0 == room[i].0;
  }

  /** lru_add on a full cache takes out the entry whose key succeeded least recently, and no other. */
  lemma AddEvicts(dim: nat, calls: seq<Call>, key: Key, payload: Ptr, i: nat)
    requires dim > 0 && |Run(dim, calls).0| == dim && i < dim - 1
    ensures var (v, ledger) := Run(dim, calls);
            var w := Perform(dim, v, Adding(key, payload)).0;
            var oldest := v[dim - 1].0;
            && Has(w, v[i].0) && LastSuccess(ledger, v[i].0) > LastSuccess(ledger, oldest)
            && (Has(w, oldest) <==> oldest == key)
  {
    var (v, ledger) := Run(dim, calls);
    var w := Perform(dim, v, Adding(key, payload)).0;
    RunExplained(dim, calls);
    assert OrderOk(v, ledger, i, dim - 1);
    StillHas(v[..dim - 1], w, i, key, payload);
    var at := Find(w, v[dim - 1].0);
    assert at < |w| ==> w[at].0 == v[dim - 1].0;
  }

  /** lru_add on a cache with room takes nothing out. */
  lemma AddKeeps(dim: nat, calls: seq<Call>, key: Key, payload: Ptr, i: nat)
    requires dim > 0 && i < |Run(dim, calls).0| < dim
    ensures Has(Perform(dim, Run(dim, calls).0, Adding(key, payload)).0, Run(dim, calls).0[i].0)
  {
    var v := Run(dim, calls).0;
    StillHas(v, Perform(dim, v, Adding(key, payload)).0, i, key, payload);
  }

  /** In the documented use a lookup of a key that is there yields what was loaded for it. */
  lemma RequestHits(dim: nat, keys: seq<Key>, load: Key -> Ptr, key: Key)
    requires dim > 0
    ensures var (_, code, payload) := Check(Requests(dim, keys, load), key);
            if Has(Requests(dim, keys, load), key) then code == LRU_OK && payload == Some(load(key))
            else code == LRU_ELEMENT_NOT_FOUND && payload == None
  {
    RequestsTakeHistory(dim, keys, load);
    HistoryValid(keys, load);
  }
}
