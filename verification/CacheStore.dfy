/**
 The cache entries and the size counter of internal/storage/pebbledb.go, as far as pruning
 needs them: an abstract map with a running total beside it.
 */
module CacheStore {

  datatype Entry = Entry(path: string, size: nat, lastAccessed: int, hits: int)

  datatype Db = Db(entries: map<string, Entry>, currentSize: int)

  /** What the database answers: reading can fail before anything happens, writing after
      the counter was changed. */
  datatype Answer = Fine | ReadFails | WriteFails

  datatype Op =
    | Save(entry: Entry, answer: Answer)
    | Delete(path: string, answer: Answer)
    | Hit(path: string, now: int, answer: Answer)

  function SizeAt(m: map<string, Entry>, path: string): nat
  {
    if path in m then m[path].size else 0
  }

  function Touched(e: Entry, path: string, now: int): Entry
  {
    Entry(path, e.size, now, e.hits + 1)
  }

  function Floor(n: int): nat
  {
    if n < 0 then 0 else n
  }

  /** The counter changes before the write and stays changed when the write fails. Saving
      adds the size and subtracts none, and a hit saves. */
  function Do(db: Db, op: Op): Db
    decreases if op.Hit? then 1 else 0
  {
    match op
    case Save(e, answer) =>
      Db(if answer.WriteFails? then db.entries else db.entries[e.path := e], db.currentSize + e.size)
    case Delete(path, answer) =>
      if answer.ReadFails? || path !in db.entries then db
      else
        Db(if answer.WriteFails? then db.entries else db.entries - {path},
            Floor(db.currentSize - db.entries[path].size))
    case Hit(path, now, answer) =>
      if answer.ReadFails? || path !in db.entries then db
      else Do(db, Save(Touched(db.entries[path], path, now), answer))
  }

  /** Saving puts the entry under its path and adds its size, whatever stood there. */
  lemma SaveMeans(db: Db, e: Entry, answer: Answer)
    ensures var t := Do(db, Save(e, answer));
            && t.currentSize == db.currentSize + e.size
            && (answer == WriteFails ==> t.entries == db.entries)
            && (answer != WriteFails ==>
                  e.path in t.entries && t.entries[e.path] == e && t.entries - {e.path} == db.entries - {e.path})
  {
  }

  /** Deleting takes the entry out and its size off, down to zero; the size goes even when
      the write then fails. */
  lemma DeleteMeans(db: Db, path: string, answer: Answer)
    ensures var t := Do(db, Delete(path, answer));
            && (answer == ReadFails || path !in db.entries ==> t == db)
            && (answer != ReadFails && path in db.entries ==>
                  && t.entries == (if answer == Fine then db.entries - {path} else db.entries)
                  && var less := db.currentSize - db.entries[path].size; t.currentSize == if less > 0 then less else 0)
  {
  }

  /** A hit saves the entry with one hit more, accessed now, and otherwise as it was. */
  lemma HitMeans(db: Db, path: string, now: int, answer: Answer)
    ensures var t := Do(db, Hit(path, now, answer));
            && (answer == ReadFails || path !in db.entries ==> t == db)
            && (answer == Fine && path in db.entries ==>
                  && path in t.entries
                  && t.entries[path] == Entry(path, db.entries[path].size, now, db.entries[path].hits + 1)
                  && t.entries - {path} == db.entries - {path})
            && (answer == WriteFails ==> t.entries == db.entries)
            && (answer != ReadFails && path in db.entries ==> t.currentSize == db.currentSize + db.entries[path].size)
  {
  }

  function Run(db: Db, ops: seq<Op>): Db
    decreases |ops|
  {
    if ops == [] then db else Run(Do(db, ops[0]), ops[1..])
  }

  // ---------------------------------------------------------------- the bytes really stored

  ghost function Total(m: map<string, Entry>): nat
    decreases |m|
  {
    if m == map[] then 0
    else
      var path :| path in m;
      m[path].size + Total(m - {path})
  }

  lemma {:induction false} TotalWithout(m: map<string, Entry>, path: string)
    requires path in m
    ensures Total(m) == m[path].size + Total(m - {path})
    decreases |m|
  {
    var first :| first in m && Total(m) == m[first].size + Total(m - {first});
    if first != path {
      TotalWithout(m - {first}, path);
      TotalWithout(m - {path}, first);
      assert (m - {first}) - {path} == (m - {path}) - {first};
    }
  }

  lemma TotalSaved(m: map<string, Entry>, e: Entry)
    ensures Total(m[e.path := e]) == Total(m) - SizeAt(m, e.path) + e.size
  {
    var n := m[e.path := e];
    TotalWithout(n, e.path);
    assert n - {e.path} == m - {e.path};
    if e.path in m {
      TotalWithout(m, e.path);
    } else {
      assert m - {e.path} == m;
    }
  }

  /** How far the counter is above the bytes stored. */
  ghost function Drift(db: Db): int
  {
    db.currentSize - Total(db.entries)
  }

  /** What an operation counts without storing it: an entry overwritten or hit, or one whose
      saving failed. */
  function Gained(db: Db, op: Op): nat
  {
    match op
    case Save(e, answer) => if answer.WriteFails? then e.size else SizeAt(db.entries, e.path)
    case Delete(_, _) => 0
    case Hit(path, _, answer) => if answer.ReadFails? then 0 else SizeAt(db.entries, path)
  }

  /** What it no longer counts though it is stored: an entry whose deletion failed halfway. */
  function Lost(db: Db, op: Op): nat
  {
    if op.Delete? && op.answer.WriteFails? then SizeAt(db.entries, op.path) else 0
  }

  lemma SaveDrift(db: Db, e: Entry, answer: Answer)
    ensures Drift(Do(db, Save(e, answer))) == Drift(db) + Gained(db, Save(e, answer))
  {
    TotalSaved(db.entries, e);
  }

  lemma HitDrift(db: Db, path: string, now: int, answer: Answer)
    ensures Drift(Do(db, Hit(path, now, answer))) == Drift(db) + Gained(db, Hit(path, now, answer))
  {
    if path in db.entries {
      SaveDrift(db, Touched(db.entries[path], path, now), answer);
    }
  }

  /** What one operation does to the drift, the floor of the counter included. */
  lemma DriftStep(db: Db, op: Op)
    requires db.currentSize >= 0
    ensures var d, t := Drift(db) + Gained(db, op) - Lost(db, op), Do(db, op);
            && t.currentSize == Floor(d + Total(t.entries))
            && (Drift(db) >= 0 ==> Drift(t) == d)
  {
    match op
    case Save(e, answer) => SaveDrift(db, e, answer);
    case Delete(path, answer) =>
      if path in db.entries {
        TotalWithout(db.entries, path);
      }
    case Hit(path, now, answer) => HitDrift(db, path, now, answer);
  }

  /** The counter is at or above the bytes stored in every state of the run. */
  ghost predicate Covers(db: Db, ops: seq<Op>)
    decreases |ops|
  {
    Drift(db) >= 0 && (ops == [] || Covers(Do(db, ops[0]), ops[1..]))
  }

  /** What the counter has to spare never runs out: each failed deletion takes the size of
      its entry from it, each overwriting, hit or failed saving adds one. */
  predicate Affordable(db: Db, ops: seq<Op>, spare: int)
    decreases |ops|
  {
    spare >= 0
    && (ops == [] || Affordable(Do(db, ops[0]), ops[1..], spare + Gained(db, ops[0]) - Lost(db, ops[0])))
  }

  function Balance(db: Db, ops: seq<Op>): int
    decreases |ops|
  {
    if ops == [] then 0 else Gained(db, ops[0]) - Lost(db, ops[0]) + Balance(Do(db, ops[0]), ops[1..])
  }

  /** Over any run, with any answers of the database, the counter stays at or above the bytes
      stored exactly as long as the failed deletions do not use up what was overwritten, hit
      or failed to be saved; and as long it is above them by exactly the difference. */
  lemma {:induction false} CounterOverstates(db: Db, ops: seq<Op>)
    requires db.currentSize >= 0
    ensures Covers(db, ops) <==> Affordable(db, ops, Drift(db))
    ensures Covers(db, ops) ==> Drift(Run(db, ops)) == Drift(db) + Balance(db, ops)
    decreases |ops|
  {
    if ops != [] {
      DriftStep(db, ops[0]);
      CounterOverstates(Do(db, ops[0]), ops[1..]);
    }
  }

  /** Only a failed deletion takes the counter below the bytes stored, and exactly that of an
      entry larger than what there is to spare. */
  lemma FallsBelowIff(db: Db, op: Op)
    requires Drift(db) >= 0
    ensures Drift(Do(db, op)) < 0 <==> Lost(db, op) > Drift(db)
  {
    DriftStep(db, op);
  }

  /** Where the counter covers the bytes stored the floor does not act. */
  lemma FloorIdle(db: Db, path: string)
    requires Drift(db) >= 0 && path in db.entries
    ensures db.currentSize - db.entries[path].size >= 0
  {
    TotalWithout(db.entries, path);
  }

  /** And it does act elsewhere: an entry saved, then twice deleted, failing the first time. */
  lemma FloorActs(e: Entry)
    requires e.size > 0
    ensures var db := Run(Db(map[], 0), [Save(e, Fine), Delete(e.path, WriteFails)]);
            Drift(db) + e.size == 0 && e.path in db.entries && db.currentSize - db.entries[e.path].size < 0
  {
    var start, save, remove := Db(map[], 0), Save(e, Fine), Delete(e.path, WriteFails);
    var db := Do(start, save);
    assert Total(start.entries) == 0;
    DriftStep(start, save);
    DriftStep(db, remove);
    assert [save, remove][1..] == [remove] && [remove][1..] == [];
    assert Run(db, [remove]) == Run(Do(db, remove), []) == Do(db, remove);
    assert Run(start, [save, remove]) == Run(db, [remove]);
  }

  ghost predicate Keyed(m: map<string, Entry>)
  {
    forall path :: path in m ==> m[path].path == path
  }

  class DatabaseStore {
    var entries: map<string, Entry>
    var currentSize: int

    constructor ()
      ensures Valid() && State() == Db(map[], 0)
    {
      entries, currentSize := map[], 0;
    }

    ghost predicate Valid()
      reads this
    {
      Keyed(entries) && currentSize >= 0
    }

    function State(): Db
      reads this
    {
      Db(entries, currentSize)
    }

    method SaveCacheEntry(e: Entry, answer: Answer) returns (ok: bool)
      requires Valid()
      modifies this
      ensures Valid() && (ok <==> !answer.WriteFails?)
      ensures State() == Do(old(State()), Save(e, answer))
    {
      currentSize := currentSize + e.size;
      ok := !answer.WriteFails?;
      if ok {
        entries := entries[e.path := e];
      }
    }

    method DeleteCacheEntry(path: string, answer: Answer) returns (ok: bool)
      requires Valid()
      modifies this
      ensures Valid() && (ok <==> answer.Fine?)
      ensures State() == Do(old(State()), Delete(path, answer))
    {
      if answer.ReadFails? {
        return false;
      }
      if path in entries {
        currentSize := currentSize - entries[path].size;
        if currentSize < 0 {
          currentSize := 0;
        }
      }
      ok := answer.Fine?;
      if ok {
        entries := entries - {path};
      }
    }

    method RecordCacheHit(path: string, now: int, answer: Answer) returns (ok: bool)
      requires Valid()
      modifies this
      ensures Valid() && (ok <==> path in old(entries) && answer.Fine?)
      ensures State() == Do(old(State()), Hit(path, now, answer))
    {
      if answer.ReadFails? || path !in entries {
        return false;
      }
      ok := SaveCacheEntry(Touched(entries[path], path, now), answer);
    }

    /** All entries, each once, in an order of the database's choosing. */
    method ListCacheEntries() returns (list: seq<Entry>)
      requires Valid()
      ensures Listing(list, entries)
    {
      list := [];
      var left := entries.Keys;
      while left != {}
        invariant left <= entries.Keys && |list| + |left| == |entries.Keys|
        invariant forall i :: 0 <= i < |list| ==>
          list[i].path in entries.Keys - left && list[i] == entries[list[i].path]
        invariant forall i, j :: 0 <= i < j < |list| ==> list[i].path != list[j].path
        decreases |left|
      {
        var path :| path in left;
        list := list + [entries[path]];
        left := left - {path};
      }
    }
  }

  /** Every entry of the map exactly once. */
  ghost predicate Listing(list: seq<Entry>, m: map<string, Entry>)
  {
    && |list| == |m.Keys|
    && (forall i :: 0 <= i < |list| ==> list[i].path in m && list[i] == m[list[i].path])
    && (forall i, j :: 0 <= i < j < |list| ==> list[i].path != list[j].path)
  }
}
