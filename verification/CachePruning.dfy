/** Selecting and pruning cached files: internal/cache/cache.go. */
module CachePruning {
  import opened CacheStore
  import opened Options

  const PRUNE_COUNT: nat := 10

  // ---------------------------------------------------------------- the exchange sort

  predicate Ordered(s: seq<Entry>, key: Entry -> int)
  {
    forall i, j :: 0 <= i < j < |s| ==> key(s[i]) <= key(s[j])
  }

  /** What stands before position i is in order and belongs before the rest. */
  ghost predicate Settled(s: seq<Entry>, i: nat, key: Entry -> int)
    requires i <= |s|
  {
    forall p, q :: 0 <= p < i && p < q < |s| ==> key(s[p]) <= key(s[q])
  }

  function Swapped(s: seq<Entry>, i: nat, j: nat): seq<Entry>
    requires i < |s| && j < |s|
  {
    s[i := s[j]][j := s[i]]
  }

  lemma SwapKeepsSettled(s: seq<Entry>, i: nat, j: nat, key: Entry -> int)
    requires i < j < |s| && Settled(s, i, key)
    ensures Settled(Swapped(s, i, j), i, key) && multiset(Swapped(s, i, j)) == multiset(s)
  {
  }

  /** Position i holds the least of what stands from i up to j. */
  ghost predicate LeastUpTo(s: seq<Entry>, i: nat, j: nat, key: Entry -> int)
    requires i < j <= |s|
  {
    forall q :: i < q < j ==> key(s[i]) <= key(s[q])
  }

  lemma LeastExtends(s: seq<Entry>, i: nat, j: nat, key: Entry -> int)
    requires i < j < |s| && LeastUpTo(s, i, j, key)
    ensures key(s[i]) > key(s[j]) ==> LeastUpTo(Swapped(s, i, j), i, j + 1, key)
    ensures key(s[i]) <= key(s[j]) ==> LeastUpTo(s, i, j + 1, key)
  {
  }

  lemma SettledNext(s: seq<Entry>, i: nat, key: Entry -> int)
    requires i < |s| && Settled(s, i, key) && LeastUpTo(s, i, |s|, key)
    ensures Settled(s, i + 1, key)
  {
  }

  method Exchange(a: array<Entry>, i: nat, j: nat)
    requires i < a.Length && j < a.Length
    modifies a
    ensures a[..] == Swapped(old(a[..]), i, j)
  {
    a[i], a[j] := a[j], a[i];
  }

  /** The inner loop: exchanges each later element that belongs before position i. */
  method SettlePosition(a: array<Entry>, i: nat, key: Entry -> int)
    requires i < a.Length && Settled(a[..], i, key)
    modifies a
    ensures Settled(a[..], i + 1, key) && multiset(a[..]) == multiset(old(a[..]))
  {
    for j := i + 1 to a.Length
      invariant multiset(a[..]) == multiset(old(a[..]))
      invariant Settled(a[..], i, key) && LeastUpTo(a[..], i, j, key)
    {
      LeastExtends(a[..], i, j, key);
      if key(a[i]) > key(a[j]) {
        SwapKeepsSettled(a[..], i, j, key);
        Exchange(a, i, j);
      }
    }
    SettledNext(a[..], i, key);
  }

  method ExchangeSort(a: array<Entry>, key: Entry -> int)
    modifies a
    ensures Ordered(a[..], key) && multiset(a[..]) == multiset(old(a[..]))
  {
    for i := 0 to a.Length
      invariant multiset(a[..]) == multiset(old(a[..]))
      invariant Settled(a[..], i, key)
    {
      SettlePosition(a, i, key);
    }
  }

  /** The oldest entries come first when sorted by Age, the most popular by Unpopularity. */
  function Age(e: Entry): int { e.lastAccessed }

  function Unpopularity(e: Entry): int { -e.hits }

  /** A selection of count entries that no entry left out should have been in. */
  ghost predicate Selected(items: seq<Entry>, m: map<string, Entry>, count: nat, key: Entry -> int)
  {
    && |items| == (if |m| < count then |m| else count)
    && Ordered(items, key)
    && (forall i :: 0 <= i < |items| ==> items[i].path in m && items[i] == m[items[i].path])
    && (forall i, j :: 0 <= i < j < |items| ==> items[i].path != items[j].path)
    && (forall path :: path in m && m[path] !in items ==> forall i :: 0 <= i < |items| ==>
        key(items[i]) <= key(m[path]))
  }

  /** As many distinct paths as there are: each of them is there. */
  lemma {:induction false} AllPathsListed(s: seq<Entry>, paths: set<string>, path: string)
    requires forall i, j :: 0 <= i < j < |s| ==> s[i].path != s[j].path
    requires |s| == |paths| && forall i :: 0 <= i < |s| ==> s[i].path in paths
    requires path in paths
    ensures exists i :: 0 <= i < |s| && s[i].path == path
    decreases |s|
  {
    var n := |s| - 1;
    var t := s[..n];
    if path != s[n].path {
      AllPathsListed(t, paths - {s[n].path}, path);
      var i :| 0 <= i < |t| && t[i].path == path;
      assert s[i].path == path;
    }
  }

  /** The first entries of a sorted listing are a selection: none of them comes after an
      entry that was left out. */
  lemma PrefixSelected(list: seq<Entry>, sorted: seq<Entry>, m: map<string, Entry>, count: nat, key: Entry -> int)
    requires Listing(list, m) && Keyed(m) && multiset(sorted) == multiset(list) && Ordered(sorted, key)
    ensures Selected(if |sorted| > count then sorted[..count] else sorted, m, count, key)
  {
    ListingPermuted(list, sorted, m);
    var items := if |sorted| > count then sorted[..count] else sorted;
    forall path | path in m && m[path] !in items
      ensures forall i :: 0 <= i < |items| ==> key(items[i]) <= key(m[path]) {
      AllPathsListed(sorted, m.Keys, path);
      var k :| 0 <= k < |sorted| && sorted[k].path == path;
      assert sorted[k] == m[path] && forall i :: 0 <= i < |items| ==> items[i] == sorted[i];
      assert k >= |items|;
    }
  }

  lemma ListingPermuted(list: seq<Entry>, sorted: seq<Entry>, m: map<string, Entry>)
    requires Listing(list, m) && multiset(sorted) == multiset(list)
    ensures Listing(sorted, m)
  {
    LengthSame(list, sorted);
    forall i | 0 <= i < |sorted| ensures sorted[i].path in m && sorted[i] == m[sorted[i].path] {
      assert sorted[i] in multiset(sorted);
    }
    forall i, j | 0 <= i < j < |sorted| ensures sorted[i].path != sorted[j].path {
      if sorted[i] == sorted[j] {
        TwiceInSeq(sorted, i, j);
        OnceInListing(list, m, sorted[i]);
      }
    }
  }

  lemma LengthSame<T>(a: seq<T>, b: seq<T>)
    requires multiset(a) == multiset(b)
    ensures |a| == |b|
  {
    assert |multiset(a)| == |a| && |multiset(b)| == |b|;
  }

  lemma TwiceInSeq<T>(s: seq<T>, i: nat, j: nat)
    requires i < j < |s| && s[i] == s[j]
    ensures multiset(s)[s[i]] >= 2
  {
    assert s == s[..i] + [s[i]] + s[i + 1..j] + [s[j]] + s[j + 1..];
  }

  lemma {:induction false} OnceInListing(list: seq<Entry>, m: map<string, Entry>, e: Entry)
    requires forall i, j :: 0 <= i < j < |list| ==> list[i].path != list[j].path
    ensures multiset(list)[e] <= 1
    decreases |list|
  {
    if list != [] {
      OnceInListing(list[1..], m, e);
      assert list == [list[0]] + list[1..];
      if list[0] == e {
        assert forall i :: 0 <= i < |list[1..]| ==> list[1..][i] == list[i + 1];
        assert e !in list[1..];
      }
    }
  }

  // ---------------------------------------------------------------- pruning

  /** What the file system and the database answer during one Add. */
  datatype World = World(
    allowed: bool,
    writable: bool,
    listed: bool,
    removable: string -> bool,
    answers: string -> Answer,
    putWrites: bool,
    saveAnswer: Answer,
    now: int)

  predicate FileGoes(files: set<string>, w: World, e: Entry)
  {
    e.path in files && w.removable(e.path)
  }

  predicate EntryGoes(files: set<string>, w: World, e: Entry)
  {
    FileGoes(files, w, e) && w.answers(e.path).Fine?
  }

  // ---------------------------------------------------------------- the loop as a fold

  /** Files, entries with their counter, and the size the loop reckons with. */
  datatype Disk = Disk(files: set<string>, db: Db, size: int)

  /** os.Remove, the deletion of the entry if that went well, and the size less if both did. */
  function RemoveOne(d: Disk, w: World, e: Entry): Disk
  {
    if FileGoes(d.files, w, e) then
      Disk(d.files - {e.path}, Do(d.db, Delete(e.path, w.answers(e.path))),
           if w.answers(e.path).Fine? then d.size - e.size else d.size)
    else d
  }

  /** The file goes if it was there and could be removed, then the entry if the database
      deletes it, and the size only if both went; nothing else is touched. */
  lemma RemoveOneMeans(d: Disk, w: World, e: Entry)
    ensures var t, gone := RemoveOne(d, w, e), e.path in d.files && w.removable(e.path);
            && t.files == (if gone then d.files - {e.path} else d.files)
            && t.db.entries == (if gone && w.answers(e.path) == Fine then d.db.entries - {e.path} else d.db.entries)
            && t.size == (if gone && w.answers(e.path) == Fine then d.size - e.size else d.size)
            && (!gone || w.answers(e.path) == ReadFails ==> t.db == d.db)
  {
  }

  /** One item after the other until the size fits. */
  function PruneAll(items: seq<Entry>, d: Disk, w: World, limit: int): Disk
  {
    if items == [] || d.size <= limit then d else PruneAll(items[1..], RemoveOne(d, w, items[0]), w, limit)
  }

  // ---------------------------------------------------------------- what is removed

  /** Entries removed, files gone, what the counter loses, and the size that remains by the
      loop's own count. */
  datatype Pruned = Pruned(removed: seq<Entry>, gone: set<string>, taken: nat, size: int)

  /** What the counter loses with an item: its size even when the write then fails. */
  function TakenWith(files: set<string>, w: World, e: Entry): nat
  {
    if FileGoes(files, w, e) && !w.answers(e.path).ReadFails? then e.size else 0
  }

  /** One item after the other until the size fits; an item counts once file and entry are
      both removed, and the file is gone even if its entry stays. */
  function PruneList(items: seq<Entry>, files: set<string>, w: World, size: int, limit: int): Pruned
  {
    if items == [] || size <= limit then Pruned([], {}, 0, size)
    else
      var e := items[0];
      var goes := EntryGoes(files, w, e);
      var p := PruneList(items[1..], files, w, if goes then size - e.size else size, limit);
      Pruned(if goes then [e] + p.removed else p.removed,
             (if FileGoes(files, w, e) then {e.path} else {}) + p.gone,
             TakenWith(files, w, e) + p.taken, p.size)
  }

  function Sizes(items: seq<Entry>): nat
  {
    if items == [] then 0 else items[0].size + Sizes(items[1..])
  }

  /** The sizes the counter would lose with all candidates. */
  function TakenByAll(items: seq<Entry>, files: set<string>, w: World): nat
  {
    if items == [] then 0 else TakenWith(files, w, items[0]) + TakenByAll(items[1..], files, w)
  }

  function Removable(items: seq<Entry>, files: set<string>, w: World): seq<Entry>
  {
    if items == [] then []
    else (if EntryGoes(files, w, items[0]) then [items[0]] else []) + Removable(items[1..], files, w)
  }

  /** The loop's count is the old size less what it removed, and it gets down to the limit
      exactly when removing every removable candidate would. */
  lemma {:induction false} PruneReaches(items: seq<Entry>, files: set<string>, w: World, size: int, limit: int)
    ensures var p := PruneList(items, files, w, size, limit);
            && p.size == size - Sizes(p.removed)
            && p.removed <= Removable(items, files, w)
            && (p.size <= limit <==> size - Sizes(Removable(items, files, w)) <= limit)
            && (p.size > limit ==> p.removed == Removable(items, files, w))
  {
    if items != [] && size > limit {
      var e := items[0];
      PruneReaches(items[1..], files, w, if EntryGoes(files, w, e) then size - e.size else size, limit);
      var rest := Removable(items[1..], files, w);
      assert Removable(items, files, w) == if EntryGoes(files, w, e) then [e] + rest else rest;
    }
  }

  /** When every removal succeeds, the removed items are the shortest prefix of the
      candidates that reaches the limit, or all of them. */
  lemma {:induction false} ShortestPrefix(items: seq<Entry>, files: set<string>, w: World, size: int, limit: int)
    returns (k: nat)
    requires forall i :: 0 <= i < |items| ==> EntryGoes(files, w, items[i])
    ensures k <= |items| && PruneList(items, files, w, size, limit).removed == items[..k]
    ensures size - Sizes(items[..k]) <= limit || k == |items|
    ensures forall j :: 0 <= j < k ==> size - Sizes(items[..j]) > limit
  {
    if items == [] || size <= limit {
      k := 0;
    } else {
      var m := ShortestPrefix(items[1..], files, w, size - items[0].size, limit);
      k := m + 1;
      forall j | 0 <= j <= k && j > 0 ensures Sizes(items[..j]) == items[0].size + Sizes(items[1..][..j - 1]) {
        assert items[..j][1..] == items[1..][..j - 1];
      }
      assert items[..k] == [items[0]] + items[1..][..m];
    }
  }

  function Paths(items: seq<Entry>): set<string>
  {
    set i | 0 <= i < |items| :: items[i].path
  }

  ghost predicate Distinct(items: seq<Entry>)
  {
    forall i, j :: 0 <= i < j < |items| ==> items[i].path != items[j].path
  }

  ghost predicate AllIn(items: seq<Entry>, m: map<string, Entry>)
  {
    forall i :: 0 <= i < |items| ==> items[i].path in m && m[items[i].path] == items[i]
  }

  /** A file that is no candidate makes no difference. */
  lemma {:induction false} OtherFile(items: seq<Entry>, files: set<string>, path: string, w: World, size: int,
            limit: int)
    requires path !in Paths(items)
    ensures PruneList(items, files - {path}, w, size, limit) == PruneList(items, files, w, size, limit)
  {
    if items != [] && size > limit {
      var e := items[0];
      assert e.path in Paths(items);
      assert forall i :: 0 <= i < |items[1..]| ==> items[1..][i] == items[i + 1];
      assert Paths(items[1..]) <= Paths(items);
      OtherFile(items[1..], files, path, w, if EntryGoes(files, w, e) then size - e.size else size, limit);
    }
  }

  lemma FirstApart(items: seq<Entry>)
    requires items != [] && Distinct(items)
    ensures Distinct(items[1..]) && items[0].path !in Paths(items[1..])
  {
    assert forall i :: 0 <= i < |items[1..]| ==> items[1..][i] == items[i + 1];
  }

  lemma PathsFirst(e: Entry, rest: seq<Entry>)
    ensures Paths([e] + rest) == {e.path} + Paths(rest)
  {
    var all := [e] + rest;
    assert all[0] == e && forall i :: 0 <= i < |rest| ==> all[i + 1] == rest[i];
    assert forall i :: 0 < i < |all| ==> all[i] == rest[i - 1];
  }

  lemma RemovedEntries(m: map<string, Entry>, e: Entry, rest: seq<Entry>)
    ensures m - {e.path} - Paths(rest) == m - Paths([e] + rest)
  {
    PathsFirst(e, rest);
  }

  lemma StillIn(items: seq<Entry>, m: map<string, Entry>)
    requires items != [] && Distinct(items) && AllIn(items, m)
    ensures AllIn(items[1..], m) && AllIn(items[1..], m - {items[0].path})
  {
    assert forall i :: 0 <= i < |items[1..]| ==> items[1..][i] == items[i + 1];
  }

  /** The result of the fold, said piece by piece. */
  ghost predicate PrunedTo(items: seq<Entry>, d: Disk, w: World, limit: int, t: Disk)
  {
    var p := PruneList(items, d.files, w, d.size, limit);
    && t.files == d.files - p.gone
    && t.db.entries == d.db.entries - Paths(p.removed)
    && t.db.currentSize == Floor(d.db.currentSize - p.taken)
    && t.size == p.size
  }

  lemma PruneStep(items: seq<Entry>, d: Disk, w: World, limit: int, t: Disk)
    requires items != [] && d.size > limit && Distinct(items) && AllIn(items, d.db.entries)
    requires PrunedTo(items[1..], RemoveOne(d, w, items[0]), w, limit, t)
    ensures PrunedTo(items, d, w, limit, t)
  {
    var e, next := items[0], RemoveOne(d, w, items[0]);
    FirstApart(items);
    OtherFile(items[1..], d.files, e.path, w, next.size, limit);
    var q := PruneList(items[1..], d.files, w, next.size, limit);
    RemovedEntries(d.db.entries, e, q.removed);
    assert d.files - {e.path} - q.gone == d.files - ({e.path} + q.gone);
    assert {} + q.gone == q.gone;
  }

  /** The loop removes just what PruneList says, and the counter loses what was taken, down
      to zero at most. */
  lemma {:induction false} FoldPrunes(items: seq<Entry>, d: Disk, w: World, limit: int)
    requires Distinct(items) && AllIn(items, d.db.entries) && d.db.currentSize >= 0
    ensures PrunedTo(items, d, w, limit, PruneAll(items, d, w, limit))
  {
    if items == [] || d.size <= limit {
      assert Paths([]) == {} && d.db.entries - {} == d.db.entries && d.files - {} == d.files;
    } else {
      FirstApart(items);
      StillIn(items, d.db.entries);
      FoldPrunes(items[1..], RemoveOne(d, w, items[0]), w, limit);
      PruneStep(items, d, w, limit, PruneAll(items, d, w, limit));
    }
  }

  // ---------------------------------------------------------------- adding

  /** The entries accessed longest ago, oldest first, and none left out that was accessed
      before one of them. */
  ghost predicate Oldest(items: seq<Entry>, m: map<string, Entry>, count: nat)
  {
    && |items| == (if |m| < count then |m| else count)
    && Distinct(items) && AllIn(items, m)
    && (forall i, j :: 0 <= i < j < |items| ==> items[i].lastAccessed <= items[j].lastAccessed)
    && (forall i, path :: 0 <= i < |items| && path in m && m[path] !in items ==>
          items[i].lastAccessed <= m[path].lastAccessed)
  }

  /** The entries with the most hits, most hits first, and none left out that has more. */
  ghost predicate MostHit(items: seq<Entry>, m: map<string, Entry>, count: nat)
  {
    && |items| == (if |m| < count then |m| else count)
    && Distinct(items) && AllIn(items, m)
    && (forall i, j :: 0 <= i < j < |items| ==> items[i].hits >= items[j].hits)
    && (forall i, path :: 0 <= i < |items| && path in m && m[path] !in items ==> items[i].hits >= m[path].hits)
  }

  lemma SelectedMeans(items: seq<Entry>, m: map<string, Entry>, count: nat)
    ensures Selected(items, m, count, Age) ==> Oldest(items, m, count)
    ensures Selected(items, m, count, Unpopularity) ==> MostHit(items, m, count)
  {
  }

  /** The ten oldest, if the database lists them. */
  ghost predicate Candidates(items: seq<Entry>, m: map<string, Entry>, w: World)
  {
    if w.listed then Oldest(items, m, 10) else items == []
  }

  lemma CandidatesDistinct(items: seq<Entry>, m: map<string, Entry>, w: World)
    requires Candidates(items, m, w)
    ensures Distinct(items) && AllIn(items, m)
  {
  }

  /** The state an Add leaves behind that got past its first write, with these candidates. */
  ghost predicate SavedTo(path: string, size: nat, items: seq<Entry>, w: World, limit: int, files: set<string>, db: Db,
                          error: Option<string>, files': set<string>, db': Db)
  {
    var p := PruneList(items, files + {path}, w, db.currentSize + size, limit);
    var kept := db.entries - Paths(p.removed);
    && files' == files + {path} - p.gone + (if w.putWrites then {path} else {})
    && db'.entries == (if error.None? then kept[path := Entry(path, size, w.now, 1)] else kept)
    && db'.currentSize == Floor(db.currentSize - p.taken) + if w.putWrites then size else 0
  }

  ghost predicate AddedTo(path: string, size: nat, items: seq<Entry>, w: World, limit: int, files: set<string>, db: Db,
                          error: Option<string>, files': set<string>, db': Db)
  {
    && (if db.currentSize + size > limit then Candidates(items, db.entries, w) else items == [])
    && SavedTo(path, size, items, w, limit, files, db, error, files', db')
  }

  lemma SaveDone(path: string, size: nat, items: seq<Entry>, w: World, limit: int, files: set<string>, db: Db,
                 d: Disk, t: Disk, error: Option<string>, files2: set<string>, db2: Db)
    requires d == Disk(files + {path}, db, db.currentSize + size) && PrunedTo(items, d, w, limit, t)
    requires files2 == t.files + if w.putWrites then {path} else {}
    requires error.None? <==> w.putWrites && !w.saveAnswer.WriteFails?
    requires db2 == if w.putWrites then Do(t.db, Save(Entry(path, size, w.now, 1), w.saveAnswer)) else t.db
    ensures SavedTo(path, size, items, w, limit, files, db, error, files2, db2)
  {
  }

  lemma CandidatesPruned(items: seq<Entry>, d: Disk, w: World, limit: int)
    requires d.db.currentSize >= 0
    requires if d.size > limit then Candidates(items, d.db.entries, w) else items == []
    ensures PrunedTo(items, d, w, limit, PruneAll(items, d, w, limit))
  {
    if d.size > limit {
      CandidatesDistinct(items, d.db.entries, w);
    }
    FoldPrunes(items, d, w, limit);
  }

  lemma FloorTwice(c: int, s: nat, t: nat)
    ensures Floor(Floor(c - s) - t) == Floor(c - (s + t))
  {
  }

  /** As long as the counter is not above what the loop reckons with, stopping early makes no
      difference to whether it ends within the limit. */
  lemma {:induction false} StoppingEarly(items: seq<Entry>, files: set<string>, w: World, size: int, limit: int,
                                         counter: nat, added: nat)
    requires counter <= Floor(size - added)
    ensures var p := PruneList(items, files, w, size, limit);
            Floor(counter - p.taken) + added <= limit <==> Floor(counter - TakenByAll(items, files, w)) + added <= limit
  {
    if items != [] && size > limit {
      var e := items[0];
      var taken := TakenWith(files, w, e);
      StoppingEarly(items[1..], files, w, if EntryGoes(files, w, e) then size - e.size else size, limit,
                    Floor(counter - taken), added);
      FloorTwice(counter, taken, TakenByAll(items[1..], files, w));
      FloorTwice(counter, taken,
                 PruneList(items[1..], files, w, if EntryGoes(files, w, e) then size - e.size else size, limit).taken);
    }
  }

  /** There is no unconditional size bound: after a successful Add the counter is within the
      limit exactly if it is once every candidate that can be removed, wholly or as far as
      the counter goes, has been taken off. */
  lemma WithinLimitIff(path: string, size: nat, items: seq<Entry>, w: World, limit: int, files: set<string>, db: Db,
                       files': set<string>, db': Db)
    requires db.currentSize >= 0 && w.putWrites
    requires AddedTo(path, size, items, w, limit, files, db, None, files', db')
    ensures db'.currentSize <= limit
       <==> Floor(db.currentSize - TakenByAll(items, files + {path}, w)) + size <= limit
  {
    StoppingEarly(items, files + {path}, w, db.currentSize + size, limit, db.currentSize, size);
  }

  /** The size is within the limit once the first k candidates have been removed as far as
      they can be. */
  predicate Enough(items: seq<Entry>, files: set<string>, w: World, size: int, limit: int, k: nat)
    requires k <= |items|
  {
    size - Sizes(Removable(items[..k], files, w)) <= limit
  }

  /** The first k candidates get their turn: as many as it takes to be within the limit. */
  predicate TakeTurns(items: seq<Entry>, files: set<string>, w: World, size: int, limit: int, k: nat)
  {
    && k <= |items| && (k == |items| || Enough(items, files, w, size, limit, k))
    && forall j :: 0 <= j < k ==> !Enough(items, files, w, size, limit, j)
  }

  lemma SizesFirst(e: Entry, rest: seq<Entry>)
    ensures Sizes([e] + rest) == e.size + Sizes(rest)
  {
    assert ([e] + rest)[1..] == rest;
  }

  lemma OneMore(items: seq<Entry>, files: set<string>, w: World, k: nat)
    requires 0 < k <= |items|
    ensures var (e, rest) := (items[0], Removable(items[1..][..k - 1], files, w));
            && Removable(items[..k], files, w) == (if EntryGoes(files, w, e) then [e] else []) + rest
            && Sizes(Removable(items[..k], files, w)) == (if EntryGoes(files, w, e) then e.size else 0) + Sizes(rest)
            && TakenByAll(items[..k], files, w) == TakenWith(files, w, e) + TakenByAll(items[1..][..k - 1], files, w)
  {
    assert items[..k][0] == items[0] && items[..k][1..] == items[1..][..k - 1];
    var rest := Removable(items[1..][..k - 1], files, w);
    SizesFirst(items[0], rest);
    assert [] + rest == rest;
  }

  lemma TurnsNext(items: seq<Entry>, files: set<string>, w: World, size: int, limit: int, m: nat)
    requires items != [] && size > limit
    requires TakeTurns(items[1..], files, w, if EntryGoes(files, w, items[0]) then size - items[0].size else size,
                       limit, m)
    ensures TakeTurns(items, files, w, size, limit, m + 1)
  {
    var left := if EntryGoes(files, w, items[0]) then size - items[0].size else size;
    forall j | 0 < j <= |items|
      ensures Enough(items, files, w, size, limit, j) == Enough(items[1..], files, w, left, limit, j - 1)
    {
      OneMore(items, files, w, j);
    }
    assert items[..0] == [];
  }

  lemma {:induction false} Turns(items: seq<Entry>, files: set<string>, w: World, size: int, limit: int)
    returns (k: nat)
    ensures TakeTurns(items, files, w, size, limit, k)
    ensures var p := PruneList(items, files, w, size, limit);
            p.removed == Removable(items[..k], files, w) && p.taken == TakenByAll(items[..k], files, w)
  {
    if items == [] || size <= limit {
      k := 0;
      assert items[..0] == [];
    } else {
      var e := items[0];
      var left := if EntryGoes(files, w, e) then size - e.size else size;
      var m := Turns(items[1..], files, w, left, limit);
      k := m + 1;
      TurnsNext(items, files, w, size, limit, m);
      OneMore(items, files, w, k);
    }
  }

  /** The file goes, and the entry stays though the counter was lowered. */
  predicate HalfRemoved(files: set<string>, w: World, e: Entry)
  {
    FileGoes(files, w, e) && w.answers(e.path).WriteFails? && e.size > 0
  }

  predicate NoneHalfRemoved(items: seq<Entry>, files: set<string>, w: World)
  {
    forall i :: 0 <= i < |items| ==> !HalfRemoved(files, w, items[i])
  }

  lemma {:induction false} TakenIffHalfRemoved(items: seq<Entry>, files: set<string>, w: World)
    ensures TakenByAll(items, files, w) >= Sizes(Removable(items, files, w))
    ensures TakenByAll(items, files, w) == Sizes(Removable(items, files, w)) <==> NoneHalfRemoved(items, files, w)
  {
    if items != [] {
      var e, rest := items[0], items[1..];
      TakenIffHalfRemoved(rest, files, w);
      SizesFirst(e, Removable(rest, files, w));
      assert [] + Removable(rest, files, w) == Removable(rest, files, w);
      NoneHalfRemovedFirst(items, files, w);
    }
  }

  lemma NoneHalfRemovedFirst(items: seq<Entry>, files: set<string>, w: World)
    requires items != []
    ensures NoneHalfRemoved(items, files, w) <==>
              !HalfRemoved(files, w, items[0]) && NoneHalfRemoved(items[1..], files, w)
  {
    var rest := items[1..];
    assert forall i :: 0 < i < |items| ==> items[i] == rest[i - 1];
    assert forall i :: 0 <= i < |rest| ==> rest[i] == items[i + 1];
  }

  lemma OneTurnCount(items: seq<Entry>, files: set<string>, w: World, size: int, limit: int, k: nat, n: nat)
    requires TakeTurns(items, files, w, size, limit, k) && TakeTurns(items, files, w, size, limit, n)
    ensures k == n
  {
  }

  /** The counter ends at the loop's own size exactly if, of the candidates that get their
      turn, none is removed halfway and the removable ones are not larger than the counter
      was, or they are just as large. */
  lemma CounterIsLoopSizeIff(path: string, size: nat, items: seq<Entry>, w: World, limit: int, files: set<string>,
                             db: Db, files': set<string>, db': Db, k: nat)
    requires db.currentSize >= 0 && w.putWrites
    requires AddedTo(path, size, items, w, limit, files, db, None, files', db')
    requires TakeTurns(items, files + {path}, w, db.currentSize + size, limit, k)
    ensures var there := files + {path};
            var removable := Sizes(Removable(items[..k], there, w));
            db'.currentSize == PruneList(items, there, w, db.currentSize + size, limit).size
            <==> removable == db.currentSize
                 || (removable <= db.currentSize && NoneHalfRemoved(items[..k], there, w))
  {
    var there, total := files + {path}, db.currentSize + size;
    PruneReaches(items, there, w, total, limit);
    var n := Turns(items, there, w, total, limit);
    OneTurnCount(items, there, w, total, limit, k, n);
    TakenIffHalfRemoved(items[..k], there, w);
  }

  lemma {:induction false} RemovedListed(items: seq<Entry>, files: set<string>, w: World, size: int, limit: int)
    ensures forall e :: e in PruneList(items, files, w, size, limit).removed ==> e in items
  {
    if items != [] && size > limit {
      var e := items[0];
      RemovedListed(items[1..], files, w, if EntryGoes(files, w, e) then size - e.size else size, limit);
    }
  }

  /** What an Add removes was accessed no later than anything it leaves that was not a
      candidate; and there are ten candidates at most. */
  lemma RemovedAreOldest(path: string, size: nat, items: seq<Entry>, w: World, limit: int, files: set<string>, db: Db,
                         error: Option<string>, files': set<string>, db': Db, gone: string, left: string)
    requires Keyed(db.entries) && AddedTo(path, size, items, w, limit, files, db, error, files', db')
    requires gone in db.entries && gone !in db'.entries
    requires left in db.entries && left !in Paths(items)
    ensures |items| <= 10 && gone in Paths(items)
    ensures db.entries[gone].lastAccessed <= db.entries[left].lastAccessed
  {
    var p := PruneList(items, files + {path}, w, db.currentSize + size, limit);
    RemovedListed(items, files + {path}, w, db.currentSize + size, limit);
    assert gone in Paths(p.removed);
    var k :| 0 <= k < |p.removed| && p.removed[k].path == gone;
    assert p.removed[k] in items;
    var i :| 0 <= i < |items| && items[i] == p.removed[k];
    assert forall j :: 0 <= j < |items| ==> items[j].path in Paths(items);
    assert db.entries[left] !in items;
  }

  // ---------------------------------------------------------------- the cache

  class Cache {
    const maxSize: int
    const db: DatabaseStore
    var files: set<string>

    constructor (maxSize: int, db: DatabaseStore)
      ensures this.maxSize == maxSize && this.db == db && files == {}
    {
      this.maxSize, this.db, files := maxSize, db, {};
    }

    method Select(count: nat, listed: bool, key: Entry -> int) returns (items: seq<Entry>)
      requires db.Valid()
      ensures if listed then Selected(items, db.entries, count, key) else items == []
    {
      if !listed {
        return [];
      }
      var list := db.ListCacheEntries();
      var a := new Entry[|list|](i requires 0 <= i < |list| => list[i]);
      assert a[..] == list;
      ExchangeSort(a, key);
      PrefixSelected(list, a[..], db.entries, count, key);
      items := a[..];
      if |items| > count {
        items := items[..count];
      }
    }

    /** The least recently accessed entries, oldest first. */
    method GetLRUItems(count: nat, listed: bool) returns (items: seq<Entry>)
      requires db.Valid()
      ensures if listed then Oldest(items, db.entries, count) else items == []
    {
      items := Select(count, listed, Age);
      SelectedMeans(items, db.entries, count);
    }

    /** The most often accessed entries, most popular first. */
    method GetMostPopularItems(count: nat, listed: bool) returns (items: seq<Entry>)
      requires db.Valid()
      ensures if listed then MostHit(items, db.entries, count) else items == []
    {
      items := Select(count, listed, Unpopularity);
      SelectedMeans(items, db.entries, count);
    }

    method RemoveItem(item: Entry, size: int, w: World) returns (left: int)
      requires db.Valid()
      modifies this, db
      ensures db.Valid()
      ensures Disk(files, db.State(), left) == RemoveOne(Disk(old(files), old(db.State()), size), w, item)
    {
      left := size;
      if item.path in files && w.removable(item.path) {
        files := files - {item.path};
        var ok := db.DeleteCacheEntry(item.path, w.answers(item.path));
        if ok {
          left := left - item.size;
        }
      }
    }

    /** The pruning loop: items are removed in turn until the size fits. */
    method PruneItems(list: seq<Entry>, size: int, w: World) returns (left: int)
      requires db.Valid()
      modifies this, db
      ensures db.Valid()
      ensures Disk(files, db.State(), left) == PruneAll(list, Disk(old(files), old(db.State()), size), w, maxSize)
    {
      left := size;
      ghost var whole := PruneAll(list, Disk(files, db.State(), size), w, maxSize);
      var i := 0;
      assert list[0..] == list;
      while i < |list| && left > maxSize
        invariant 0 <= i <= |list| && db.Valid()
        invariant PruneAll(list[i..], Disk(files, db.State(), left), w, maxSize) == whole
      {
        assert list[i..][0] == list[i] && list[i..][1..] == list[i + 1..];
        left := RemoveItem(list[i], left, w);
        i := i + 1;
      }
    }

    /** Prunes if the size is above the limit; the ten oldest entries are candidates. */
    method MakeRoom(size: int, w: World) returns (left: int, ghost items: seq<Entry>)
      requires db.Valid()
      modifies this, db
      ensures db.Valid()
      ensures if size > maxSize then Candidates(items, old(db.entries), w) else items == []
      ensures PrunedTo(items, Disk(old(files), old(db.State()), size), w, maxSize, Disk(files, db.State(), left))
    {
      left, items := size, [];
      ghost var d := Disk(files, db.State(), size);
      if size > maxSize {
        var list := GetLRUItems(PRUNE_COUNT, w.listed);
        items := list;
        left := PruneItems(list, size, w);
      }
      CandidatesPruned(items, d, w, maxSize);
    }

    /** DatabaseStore.Put: the file, then the entry. */
    method Put(path: string, size: nat, w: World) returns (error: Option<string>)
      requires db.Valid()
      modifies this, db
      ensures db.Valid()
      ensures error.None? <==> w.putWrites && !w.saveAnswer.WriteFails?
      ensures files == old(files) + if w.putWrites then {path} else {}
      ensures db.State() == if w.putWrites then Do(old(db.State()), Save(Entry(path, size, w.now, 1), w.saveAnswer))
                            else old(db.State())
    {
      if !w.putWrites {
        return Some("failed to write file");
      }
      files := files + {path};
      var ok := db.SaveCacheEntry(Entry(path, size, w.now, 1), w.saveAnswer);
      error := if ok then None else Some("failed to save entry");
    }

    method AddAllowed(path: string, size: nat, w: World) returns (error: Option<string>, ghost items: seq<Entry>)
      requires db.Valid()
      modifies this, db
      ensures db.Valid() && (error.None? <==> w.putWrites && !w.saveAnswer.WriteFails?)
      ensures AddedTo(path, size, items, w, maxSize, old(files), old(db.State()), error, files, db.State())
    {
      ghost var files0, db0 := files, db.State();
      files := files + {path};
      var left, newSize := 0, db.currentSize + size;
      ghost var d := Disk(files, db.State(), newSize);
      left, items := MakeRoom(newSize, w);
      ghost var t := Disk(files, db.State(), left);
      assert PrunedTo(items, d, w, maxSize, t);
      error := Put(path, size, w);
      SaveDone(path, size, items, w, maxSize, files0, db0, d, t, error, files, db.State());
    }

    /** Writes the file, prunes if the counter says so, then writes file and entry. */
    method Add(path: string, size: nat, w: World) returns (error: Option<string>, ghost items: seq<Entry>)
      requires db.Valid()
      modifies this, db
      ensures db.Valid()
      ensures error.None? <==> w.allowed && w.writable && w.putWrites && !w.saveAnswer.WriteFails?
      ensures !(w.allowed && w.writable) ==> files == old(files) && db.State() == old(db.State())
      ensures w.allowed && w.writable ==>
                AddedTo(path, size, items, w, maxSize, old(files), old(db.State()), error, files, db.State())
    {
      if !w.allowed {
        return Some("path not allowed: " + path), [];
      }
      if !w.writable {
        return Some("failed to write file to disk"), [];
      }
      error, items := AddAllowed(path, size, w);
    }
  }
}
