/**
 Key retrieval of internal/keymanager/keymanager.go as a step system: FetchKey and
 RemoveKey calls and outside changes to the key directory, interleaved.
 */
module KeyManager {

  // ---------------------------------------------------------------- key ids

  function UpperChar(c: char): char
  {
    if 'a' <= c <= 'z' then (c as int - 32) as char else c
  }

  function Upper(s: string): string
  {
    seq(|s|, i requires 0 <= i < |s| => UpperChar(s[i]))
  }

  predicate EqualFold(a: string, b: string)
  {
    Upper(a) == Upper(b)
  }

  function TrimZeroX(s: string): string
  {
    if |s| >= 2 && s[..2] == "0X" then s[2..] else s
  }

  /** What FetchKey makes of its argument: upper case, without one 0x prefix. */
  function Normalize(id: string): string
  {
    TrimZeroX(Upper(id))
  }

  lemma UpperTwice(s: string)
    ensures Upper(Upper(s)) == Upper(s)
  {
  }

  lemma NormalizeIsUpper(id: string)
    ensures Upper(Normalize(id)) == Normalize(id)
  {
    UpperTwice(id);
    var u := Upper(id);
    if |u| >= 2 {
      assert forall i :: 0 <= i < |u| - 2 ==> Upper(u[2..])[i] == UpperChar(u[i + 2]) == Upper(u)[i + 2];
      assert Upper(u[2..]) == u[2..];
    }
  }

  // ---------------------------------------------------------------- state

  /** Where a FetchKey call stands; each state names what comes next. */
  datatype Pc =
    | Scanning                       // the read-locked scan of the cache
    | Statting(fetchTime: int)       // key found: the check of its file, without a lock
    | AwaitingLock
    | Rechecking(todo: set<string>)  // write-locked: cached spellings still to look up on disk
    | Trying(server: nat)            // write-locked: the next keyserver
    | Returned(ok: bool)

  /** `key` is the spelling the call works with; `dropped` records whether, of the events
      since the call found the key that concern it, the last one took it out of the cache. */
  datatype Call = Call(id: string, key: string, pc: Pc, dropped: bool)

  /** A ListAvailableKeys call between reading the directory and replacing the cache. */
  datatype Listing = Read(names: set<string>) | Done

  datatype Config = Config(autoRetrieve: bool, ttl: int, servers: nat)

  /** `downloads`, `losses` and `unreadable` record the run, by folded key id: successful
      downloads, steps after which a cached key with its file on disk no longer was one,
      and checks under the write lock that failed on a file that was there. */
  datatype State = State(
    now: int,
    keyCache: map<string, int>,
    files: set<string>,
    writer: int,
    calls: seq<Call>,
    listings: seq<Listing>,
    downloads: map<string, nat>,
    losses: map<string, nat>,
    unreadable: map<string, nat>)

  const NOBODY: int := -1

  function Count(m: map<string, nat>, f: string): nat
  {
    if f in m then m[f] else 0
  }

  function Bump(m: map<string, nat>, f: string): (r: map<string, nat>)
    ensures forall x :: Count(r, x) == Count(m, x) + (if x == f then 1 else 0)
  {
    m[f := Count(m, f) + 1]
  }

  function BumpAll(m: map<string, nat>, fs: set<string>): (r: map<string, nat>)
    ensures forall x :: Count(r, x) == Count(m, x) + (if x in fs then 1 else 0)
  {
    map x | x in m.Keys + fs :: Count(m, x) + if x in fs then 1 else 0
  }

  /** HasKey: case-insensitive, and nothing more. */
  predicate HasKey(s: State, id: string)
  {
    exists c :: c in s.keyCache && EqualFold(c, id)
  }

  /** The cached spellings of a key id. */
  function Spellings(s: State, id: string): set<string>
  {
    set c | c in s.keyCache && EqualFold(c, id)
  }

  /** Some spelling of the folded id is cached and on disk. */
  predicate Known(s: State, f: string)
  {
    exists c :: c in s.keyCache && c in s.files && Upper(c) == f
  }

  // ---------------------------------------------------------------- steps

  datatype Action =
    | Tick
    | CallFetch(id: string)
    | ScanHit(i: nat, c: string)
    | ScanMiss(i: nat)
    | Stat(i: nat, failed: bool)
    | Lock(i: nat)
    | Recheck(i: nat, c: string, failed: bool)
    | StartTrying(i: nat)
    | Download(i: nat)
    | FailServer(i: nat, partial: bool)
    | GiveUp(i: nat)
    | RemoveKey(id: string, actual: string)
    | OutsideDelete(name: string)
    | OutsideCreate(name: string)
    | ListRead
    | ListReplace(k: nat, times: map<string, int>, unseen: set<string>)

  predicate Matches(s: State, i: nat, c: string)
    requires i < |s.calls|
  {
    c in s.keyCache && EqualFold(c, s.calls[i].key)
  }

  predicate Enabled(cfg: Config, s: State, a: Action)
  {
    match a
    case Tick => true
    case CallFetch(_) => true
    case ScanHit(i, c) => i < |s.calls| && s.calls[i].pc.Scanning? && s.writer == NOBODY && Matches(s, i, c)
    case ScanMiss(i) => i < |s.calls| && s.calls[i].pc.Scanning? && s.writer == NOBODY && !HasKey(s, s.calls[i].key)
    case Stat(i, _) => i < |s.calls| && s.calls[i].pc.Statting?
    case Lock(i) => i < |s.calls| && s.calls[i].pc.AwaitingLock? && s.writer == NOBODY
    case Recheck(i, c, _) => i < |s.calls| && s.calls[i].pc.Rechecking? && c in s.calls[i].pc.todo
    case StartTrying(i) => i < |s.calls| && s.calls[i].pc == Rechecking({})
    case Download(i) => i < |s.calls| && s.calls[i].pc.Trying? && s.calls[i].pc.server < Servers(cfg)
    case FailServer(i, _) => i < |s.calls| && s.calls[i].pc.Trying? && s.calls[i].pc.server < Servers(cfg)
    case GiveUp(i) => i < |s.calls| && s.calls[i].pc.Trying? && s.calls[i].pc.server >= Servers(cfg)
    case RemoveKey(id, actual) =>
      s.writer == NOBODY
      && (if HasKey(s, id) then actual in s.keyCache && EqualFold(actual, id) else actual == id)
    case OutsideDelete(name) => name in s.files
    case OutsideCreate(_) => true
    case ListRead => true
    case ListReplace(k, times, unseen) =>
      k < |s.listings| && s.listings[k].Read? && s.writer == NOBODY && times.Keys == StillThere(s, k, unseen)
  }

  /** Of the names read from the directory those whose files are still there, but for the ones
      that cannot be looked at. */
  function StillThere(s: State, k: nat, unseen: set<string>): set<string>
    requires k < |s.listings| && s.listings[k].Read?
  {
    s.listings[k].names * s.files - unseen
  }

  /** Without any keyserver the default one is used. */
  function Servers(cfg: Config): nat
  {
    if cfg.servers == 0 then 1 else cfg.servers
  }

  function SetPc(s: State, i: nat, pc: Pc): State
    requires i < |s.calls|
  {
    s.(calls := s.calls[i := s.calls[i].(pc := pc)])
  }

  /** A return under the write lock releases it. */
  function Unlock(s: State, i: nat, ok: bool): State
    requires i < |s.calls|
  {
    SetPc(s, i, Returned(ok)).(writer := NOBODY)
  }

  /** Files or cache entries go; a folded id that lost a cached key with its file counts a loss. */
  function Lose(s: State, names: set<string>, keys: set<string>, f: string): State
  {
    var gone := exists c :: c in names + keys && c in s.keyCache && c in s.files && Upper(c) == f;
    s.(files := s.files - names,
       keyCache := s.keyCache - keys,
       losses := if gone then Bump(s.losses, f) else s.losses)
  }

  /** The calls that wait for the check of their file, with a new verdict on their key. */
  function Judge(calls: seq<Call>, concerned: Call -> bool, dropped: Call -> bool): (r: seq<Call>)
    ensures |r| == |calls|
    ensures forall k :: 0 <= k < |calls| ==>
              r[k] == if calls[k].pc.Statting? && concerned(calls[k]) then calls[k].(dropped := dropped(calls[k]))
              else calls[k]
  {
    seq(|calls|, k requires 0 <= k < |calls| =>
      if calls[k].pc.Statting? && concerned(calls[k]) then calls[k].(dropped := dropped(calls[k])) else calls[k])
  }

  /** The folded ids of cached keys on disk. */
  function KnownIds(cached: set<string>, files: set<string>): set<string>
  {
    set c | c in cached && c in files :: Upper(c)
  }

  /** ListAvailableKeys takes the names it read before it had the lock, as far as their files
      can still be looked at, with their times, for the whole cache. */
  function Replace(s: State, k: nat, times: map<string, int>, unseen: set<string>): State
    requires k < |s.listings| && s.listings[k].Read?
  {
    s.(keyCache := times,
       listings := s.listings[k := Done],
       calls := Judge(s.calls, (_: Call) => true,
                      (c: Call) => !exists n :: n in StillThere(s, k, unseen) && EqualFold(n, c.key)),
       losses := BumpAll(s.losses, KnownIds(s.keyCache.Keys, s.files) - KnownIds(times.Keys, s.files)))
  }

  function Step(cfg: Config, s: State, a: Action): State
    requires Enabled(cfg, s, a)
  {
    match a
    case Tick => s.(now := s.now + 1)
    case CallFetch(id) =>
      var pc := if cfg.autoRetrieve then Scanning else Returned(false);
      s.(calls := s.calls + [Call(id, Normalize(id), pc, false)])
    case ScanHit(i, c) =>
      s.(calls := s.calls[i := s.calls[i].(key := c, pc := Statting(s.keyCache[c]), dropped := false)])
    case ScanMiss(i) => SetPc(s, i, AwaitingLock)
    case Stat(i, failed) =>
      // an error other than "not there" counts as a file that is there
      if s.calls[i].key !in s.files && !failed then SetPc(s, i, AwaitingLock)
      else if s.now - s.calls[i].pc.fetchTime < cfg.ttl then SetPc(s, i, Returned(true))
      else SetPc(s, i, AwaitingLock)
    case Lock(i) =>
      SetPc(s, i, Rechecking(Spellings(s, s.calls[i].key))).(writer := i)
    case Recheck(i, c, failed) =>
      if c in s.files && !failed then Unlock(s, i, true)
      else
        SetPc(s, i, Rechecking(s.calls[i].pc.todo - {c}))
        .(unreadable := if c in s.files then Bump(s.unreadable, Upper(c)) else s.unreadable)
    case StartTrying(i) => SetPc(s, i, Trying(0))
    case Download(i) =>
      var key := s.calls[i].key;
      var u := Unlock(s, i, true);
      u.(files := s.files + {key}, keyCache := s.keyCache[key := s.now], downloads := Bump(s.downloads, Upper(key)),
         calls := Judge(u.calls, (c: Call) => EqualFold(c.key, key), (_: Call) => false))
    case FailServer(i, partial) =>
      // the file may have been created before the write failed
      SetPc(s, i, Trying(s.calls[i].pc.server + 1))
      .(files := if partial then s.files + {s.calls[i].key} else s.files)
    case GiveUp(i) => Unlock(s, i, false)
    case RemoveKey(id, actual) =>
      Lose(s, {actual}, Spellings(s, id), Upper(id))
      .(calls := Judge(s.calls, (c: Call) => EqualFold(c.key, id), (_: Call) => true))
    case OutsideDelete(name) => Lose(s, {name}, {}, Upper(name))
    case OutsideCreate(name) => s.(files := s.files + {name})
    case ListRead => s.(listings := s.listings + [Read(s.files)])
    case ListReplace(k, times, unseen) => Replace(s, k, times, unseen)
  }

  ghost predicate Execution(cfg: Config, s: State, run: seq<Action>, t: State)
    decreases |run|
  {
    if run == [] then s == t
    else Enabled(cfg, s, run[0]) && Execution(cfg, Step(cfg, s, run[0]), run[1..], t)
  }

  /** A manager just created over some key files, all of them cached. */
  ghost predicate Fresh(s: State)
  {
    && s.keyCache.Keys <= s.files
    && s.writer == NOBODY && s.calls == [] && s.listings == []
    && s.downloads == map[] && s.losses == map[] && s.unreadable == map[]
  }

  // ---------------------------------------------------------------- what every step keeps

  predicate Locked(pc: Pc)
  {
    pc.Rechecking? || pc.Trying?
  }

  /** Mutual exclusion: the writer and only the writer is inside the locked part. */
  ghost predicate Exclusive(s: State)
  {
    && (forall i :: 0 <= i < |s.calls| ==> (Locked(s.calls[i].pc) <==> s.writer == i))
    && (s.writer == NOBODY || 0 <= s.writer < |s.calls|)
  }

  /** A call works with a spelling of the id it was given. */
  ghost predicate SpellsItsId(s: State)
  {
    forall i :: 0 <= i < |s.calls| ==> Upper(s.calls[i].key) == Normalize(s.calls[i].id)
  }

  /** What the cached spellings still to be looked up have on disk. */
  predicate Pending(s: State, i: nat)
    requires i < |s.calls| && s.calls[i].pc.Rechecking?
  {
    exists c :: c in s.calls[i].pc.todo && c in s.files
  }

  /** `had` is 1 for a key known from the start. One download more than losses at most, and
      only while the key is known; for the key in flight none more once the recheck found
      nothing. */
  ghost predicate SingleFlight(s: State, f: string, had: nat)
  {
    var allowed := Count(s.losses, f) + Count(s.unreadable, f);
    var here := 0 <= s.writer < |s.calls| && Upper(s.calls[s.writer].key) == f;
    if here && s.calls[s.writer].pc.Trying? then had + Count(s.downloads, f) <= allowed
    else if here && s.calls[s.writer].pc.Rechecking? then
      had + Count(s.downloads, f) <= allowed + (if Pending(s, s.writer) then 1 else 0)
    else had + Count(s.downloads, f) <= allowed + (if Known(s, f) then 1 else 0)
  }

  /** Under the write lock the spellings to look up are cached ones of the key. */
  ghost predicate TodoCached(s: State)
  {
    forall i :: 0 <= i < |s.calls| && s.calls[i].pc.Rechecking? ==>
      forall c :: c in s.calls[i].pc.todo ==> c in s.keyCache && EqualFold(c, s.calls[i].key)
  }

  /** A key found by a call is cached exactly while the last event about it did not drop it. */
  ghost predicate FoundStays(s: State)
  {
    forall i :: 0 <= i < |s.calls| && s.calls[i].pc.Statting? ==> (HasKey(s, s.calls[i].key) <==> !s.calls[i].dropped)
  }

  /** Steps that judge calls anew and leave the locks alone. */
  predicate Forgetting(a: Action)
  {
    a.RemoveKey? || a.ListReplace?
  }

  /** The calls are the same but for the verdicts. */
  predicate SameBut(c: seq<Call>, d: seq<Call>)
  {
    |c| == |d| && forall i :: 0 <= i < |c| ==> d[i].id == c[i].id && d[i].key == c[i].key && d[i].pc == c[i].pc
  }

  lemma ForgettingKeepsCalls(cfg: Config, s: State, a: Action, t: State)
    requires Enabled(cfg, s, a) && Forgetting(a) && t == Step(cfg, s, a)
    ensures SameBut(s.calls, t.calls) && t.writer == s.writer == NOBODY
  {
  }

  /** Steps of nobody's call. */
  predicate Outside(a: Action)
  {
    a.Tick? || a.OutsideDelete? || a.OutsideCreate? || a.ListRead?
  }

  lemma OutsideKeeps(cfg: Config, s: State, a: Action, t: State)
    requires Enabled(cfg, s, a) && Outside(a) && t == Step(cfg, s, a)
    ensures t.calls == s.calls && t.writer == s.writer && t.keyCache == s.keyCache
  {
  }

  /** Steps of the i-th call that change nothing in the cache. */
  predicate Moves(a: Action, i: nat)
  {
    (a.ScanHit? || a.ScanMiss? || a.Stat? || a.Lock? || a.Recheck? || a.StartTrying? || a.FailServer?
     || a.GiveUp?) && a.i == i
  }

  lemma MoveKeeps(cfg: Config, s: State, a: Action, i: nat, t: State)
    requires Enabled(cfg, s, a) && Moves(a, i) && t == Step(cfg, s, a)
    ensures i < |s.calls| && |t.calls| == |s.calls| && t.calls == s.calls[i := t.calls[i]] && t.keyCache == s.keyCache
    ensures t.calls[i].id == s.calls[i].id && Upper(t.calls[i].key) == Upper(s.calls[i].key)
  {
  }

  lemma MoveLocks(cfg: Config, s: State, a: Action, i: nat, t: State)
    requires Enabled(cfg, s, a) && Moves(a, i) && t == Step(cfg, s, a)
    ensures Locked(s.calls[i].pc) == Locked(t.calls[i].pc) ==> t.writer == s.writer
    ensures !Locked(s.calls[i].pc) && Locked(t.calls[i].pc) ==> s.writer == NOBODY && t.writer == i
    ensures Locked(s.calls[i].pc) && !Locked(t.calls[i].pc) ==> t.writer == NOBODY
  {
  }

  lemma MoveTodo(cfg: Config, s: State, a: Action, i: nat, t: State)
    requires Enabled(cfg, s, a) && Moves(a, i) && (a.Lock? || a.Recheck?) && t == Step(cfg, s, a)
    requires i < |t.calls| && t.calls[i].pc.Rechecking?
    ensures if a.Lock? then t.calls[i].pc.todo == Spellings(s, s.calls[i].key)
            else s.calls[i].pc.Rechecking? && t.calls[i].pc.todo <= s.calls[i].pc.todo
    ensures t.calls[i].key == s.calls[i].key
  {
  }

  lemma OthersRecheckNot(cfg: Config, s: State, a: Action, i: nat, t: State)
    requires Enabled(cfg, s, a) && Moves(a, i) && !a.Lock? && !a.Recheck? && t == Step(cfg, s, a)
    ensures i < |t.calls| && !t.calls[i].pc.Rechecking?
  {
  }

  lemma ExclusiveStep(cfg: Config, s: State, a: Action, t: State)
    requires Exclusive(s) && Enabled(cfg, s, a) && t == Step(cfg, s, a)
    ensures Exclusive(t)
  {
    if Forgetting(a) {
      ForgettingKeepsCalls(cfg, s, a, t);
    } else if Outside(a) {
      OutsideKeeps(cfg, s, a, t);
    } else if a.CallFetch? {
      assert t.calls[..|s.calls|] == s.calls && t.writer == s.writer;
    } else if a.Download? {
      DownloadUnlocks(cfg, s, a.i, t);
    } else {
      MoveKeeps(cfg, s, a, a.i, t);
      MoveLocks(cfg, s, a, a.i, t);
    }
  }

  lemma DownloadUnlocks(cfg: Config, s: State, i: nat, t: State)
    requires Enabled(cfg, s, Download(i)) && t == Step(cfg, s, Download(i))
    ensures i < |s.calls| && |t.calls| == |s.calls| && t.writer == NOBODY
    ensures Locked(s.calls[i].pc) && !Locked(t.calls[i].pc)
    ensures forall k :: 0 <= k < |s.calls| ==> t.calls[k].id == s.calls[k].id && t.calls[k].key == s.calls[k].key
    ensures forall k :: 0 <= k < |s.calls| && k != i ==> t.calls[k].pc == s.calls[k].pc
  {
  }

  lemma SpellsItsIdStep(cfg: Config, s: State, a: Action, t: State)
    requires SpellsItsId(s) && Enabled(cfg, s, a) && t == Step(cfg, s, a)
    ensures SpellsItsId(t)
  {
    if Forgetting(a) {
      ForgettingKeepsCalls(cfg, s, a, t);
    } else if Outside(a) {
      OutsideKeeps(cfg, s, a, t);
    } else if a.CallFetch? {
      NormalizeIsUpper(a.id);
    } else if a.Download? {
      DownloadUnlocks(cfg, s, a.i, t);
    } else {
      MoveKeeps(cfg, s, a, a.i, t);
    }
  }

  lemma TodoCachedStep(cfg: Config, s: State, a: Action, t: State)
    requires TodoCached(s) && Exclusive(s) && Enabled(cfg, s, a) && t == Step(cfg, s, a)
    ensures TodoCached(t)
  {
    if Forgetting(a) {
      ForgettingKeepsCalls(cfg, s, a, t);
      assert forall i :: 0 <= i < |s.calls| ==> !Locked(s.calls[i].pc);
    } else if Outside(a) {
      OutsideKeeps(cfg, s, a, t);
    } else if a.CallFetch? {
      assert t.calls[..|s.calls|] == s.calls && t.keyCache == s.keyCache;
    } else if a.Download? {
      DownloadUnlocks(cfg, s, a.i, t);
      assert s.writer == a.i;
    } else {
      MoveKeeps(cfg, s, a, a.i, t);
      if !a.Lock? && !a.Recheck? {
        OthersRecheckNot(cfg, s, a, a.i, t);
      } else if t.calls[a.i].pc.Rechecking? {
        MoveTodo(cfg, s, a, a.i, t);
      }
    }
  }

  lemma RemoveFound(cfg: Config, s: State, id: string, actual: string, t: State)
    requires FoundStays(s) && Enabled(cfg, s, RemoveKey(id, actual)) && t == Step(cfg, s, RemoveKey(id, actual))
    ensures FoundStays(t)
  {
    forall i | 0 <= i < |t.calls| && t.calls[i].pc.Statting?
      ensures HasKey(t, t.calls[i].key) <==> !t.calls[i].dropped
    {
      var key := s.calls[i].key;
      if !EqualFold(key, id) && HasKey(s, key) {
        var c :| c in s.keyCache && EqualFold(c, key);
        assert c in t.keyCache;
      }
    }
  }

  lemma DownloadFound(cfg: Config, s: State, i: nat, t: State)
    requires FoundStays(s) && Enabled(cfg, s, Download(i)) && t == Step(cfg, s, Download(i))
    ensures FoundStays(t)
  {
    var fetched := s.calls[i].key;
    forall k | 0 <= k < |t.calls| && t.calls[k].pc.Statting?
      ensures HasKey(t, t.calls[k].key) <==> !t.calls[k].dropped
    {
      var key := s.calls[k].key;
      assert t.calls[k].key == key && s.calls[k].pc.Statting?;
      if EqualFold(key, fetched) {
        assert fetched in t.keyCache;
      } else if HasKey(s, key) {
        var c :| c in s.keyCache && EqualFold(c, key);
        assert c in t.keyCache;
      }
    }
  }

  lemma ReplaceFound(cfg: Config, s: State, k: nat, times: map<string, int>, unseen: set<string>, t: State)
    requires Enabled(cfg, s, ListReplace(k, times, unseen)) && t == Step(cfg, s, ListReplace(k, times, unseen))
    requires FoundStays(s)
    ensures FoundStays(t)
  {
    assert t.keyCache.Keys == StillThere(s, k, unseen);
  }

  lemma MoveFound(cfg: Config, s: State, a: Action, i: nat, t: State)
    requires Enabled(cfg, s, a) && Moves(a, i) && t == Step(cfg, s, a) && t.calls[i].pc.Statting?
    ensures a.ScanHit? && !t.calls[i].dropped && t.calls[i].key in t.keyCache
  {
  }

  lemma FoundStaysStep(cfg: Config, s: State, a: Action, t: State)
    requires FoundStays(s) && Enabled(cfg, s, a) && t == Step(cfg, s, a)
    ensures FoundStays(t)
  {
    if a.RemoveKey? {
      RemoveFound(cfg, s, a.id, a.actual, t);
    } else if a.ListReplace? {
      ReplaceFound(cfg, s, a.k, a.times, a.unseen, t);
    } else if a.Download? {
      DownloadFound(cfg, s, a.i, t);
    } else if Outside(a) {
      OutsideKeeps(cfg, s, a, t);
    } else if a.CallFetch? {
      assert t.calls[..|s.calls|] == s.calls && t.keyCache == s.keyCache;
    } else {
      MoveKeeps(cfg, s, a, a.i, t);
      if t.calls[a.i].pc.Statting? {
        MoveFound(cfg, s, a, a.i, t);
      }
    }
  }

  lemma LoseCounts(s: State, names: set<string>, keys: set<string>, g: string, f: string, had: nat)
    requires SingleFlight(s, f, had) && Exclusive(s) && TodoCached(s)
    requires forall c :: c in names && c in s.files && c in s.keyCache ==> Upper(c) == g
    requires forall c :: c in keys ==> Upper(c) == g
    requires keys != {} ==> s.writer == NOBODY
    ensures SingleFlight(Lose(s, names, keys, g), f, had)
  {
    var t := Lose(s, names, keys, g);
    if Known(s, f) && !Known(t, f) {
      var c :| c in s.keyCache && c in s.files && Upper(c) == f;
      assert c in names + keys;
    }
    if 0 <= s.writer < |s.calls| && s.calls[s.writer].pc.Rechecking? && Pending(s, s.writer) && !Pending(t, s.writer) {
      var c :| c in s.calls[s.writer].pc.todo && c in s.files;
      assert c in names + keys && c in s.keyCache;
    }
  }

  lemma KnownId(s: State, f: string)
    ensures Known(s, f) <==> f in KnownIds(s.keyCache.Keys, s.files)
  {
  }

  lemma ReplaceCounts(s: State, k: nat, times: map<string, int>, unseen: set<string>, f: string, had: nat)
    requires SingleFlight(s, f, had) && Exclusive(s) && s.writer == NOBODY && k < |s.listings| && s.listings[k].Read?
    ensures SingleFlight(Replace(s, k, times, unseen), f, had)
  {
    KnownId(s, f);
    KnownId(Replace(s, k, times, unseen), f);
  }

  lemma LockCounts(cfg: Config, s: State, i: nat, f: string, had: nat)
    requires SingleFlight(s, f, had) && Exclusive(s) && Enabled(cfg, s, Lock(i))
    ensures SingleFlight(Step(cfg, s, Lock(i)), f, had)
  {
    var t := Step(cfg, s, Lock(i));
    if Upper(s.calls[i].key) == f && Known(s, f) {
      var c :| c in s.keyCache && c in s.files && Upper(c) == f;
      assert c in t.calls[i].pc.todo && Pending(t, i);
    }
  }

  lemma RecheckCounts(cfg: Config, s: State, i: nat, c: string, failed: bool, f: string, had: nat)
    requires SingleFlight(s, f, had) && Exclusive(s) && TodoCached(s) && Enabled(cfg, s, Recheck(i, c, failed))
    ensures SingleFlight(Step(cfg, s, Recheck(i, c, failed)), f, had)
  {
    var t := Step(cfg, s, Recheck(i, c, failed));
    assert s.writer == i;
    assert c in s.keyCache && EqualFold(c, s.calls[i].key);
    if c in s.files && !failed {
      assert Known(t, Upper(c));
    } else if Upper(c) == f && Pending(s, i) && !Pending(t, i) {
      var d :| d in s.calls[i].pc.todo && d in s.files;
      assert d == c;
    }
  }

  lemma DownloadCounts(cfg: Config, s: State, i: nat, f: string, had: nat)
    requires SingleFlight(s, f, had) && Exclusive(s) && Enabled(cfg, s, Download(i))
    ensures SingleFlight(Step(cfg, s, Download(i)), f, had)
  {
    var t := Step(cfg, s, Download(i));
    var key := s.calls[i].key;
    assert s.writer == i && key in t.keyCache && key in t.files;
    if Upper(key) != f && Known(s, f) {
      var c :| c in s.keyCache && c in s.files && Upper(c) == f;
      assert c in t.keyCache && c in t.files;
    }
  }

  /** Files only appear: nothing known is forgotten, nothing pending goes away. */
  lemma MoreFilesCount(s: State, t: State, f: string, had: nat)
    requires SingleFlight(s, f, had) && s.files <= t.files && t.keyCache == s.keyCache && t.writer == s.writer
    requires |s.calls| <= |t.calls|
    requires t.downloads == s.downloads && t.losses == s.losses && t.unreadable == s.unreadable
    requires 0 <= s.writer < |s.calls| ==>
               var c, d := s.calls[s.writer], t.calls[s.writer];
               d.key == c.key && (d.pc == c.pc || (c.pc.Trying? && d.pc.Trying?))
    requires s.writer < |t.calls| ==> s.writer < |s.calls|
    ensures SingleFlight(t, f, had)
  {
    if Known(s, f) {
      var c :| c in s.keyCache && c in s.files && Upper(c) == f;
      assert c in t.keyCache && c in t.files;
    }
    if 0 <= s.writer < |s.calls| && s.calls[s.writer].pc.Rechecking? && Pending(s, s.writer) {
      var c :| c in s.calls[s.writer].pc.todo && c in s.files;
      assert c in t.calls[s.writer].pc.todo && c in t.files;
    }
  }

  /** Steps outside the write lock, and failed servers. */
  predicate Other(a: Action)
  {
    a.Tick? || a.CallFetch? || a.ScanHit? || a.ScanMiss? || a.Stat? || a.FailServer? || a.OutsideCreate? || a.ListRead?
  }

  lemma OtherCounts(cfg: Config, s: State, a: Action, f: string, had: nat)
    requires SingleFlight(s, f, had) && Exclusive(s) && Enabled(cfg, s, a) && Other(a)
    ensures SingleFlight(Step(cfg, s, a), f, had)
  {
    var t := Step(cfg, s, a);
    OtherKeeps(cfg, s, a, t);
    OtherKeepsHolder(cfg, s, a, t);
    MoreFilesCount(s, t, f, had);
  }

  lemma OtherKeeps(cfg: Config, s: State, a: Action, t: State)
    requires Enabled(cfg, s, a) && Other(a) && t == Step(cfg, s, a)
    ensures t.downloads == s.downloads && t.losses == s.losses && t.unreadable == s.unreadable
    ensures t.writer == s.writer && t.keyCache == s.keyCache && s.files <= t.files && |s.calls| <= |t.calls|
  {
  }

  /** The call under the lock stays where it is, or goes on to the next server. */
  lemma OtherKeepsHolder(cfg: Config, s: State, a: Action, t: State)
    requires Exclusive(s) && Enabled(cfg, s, a) && Other(a) && t == Step(cfg, s, a)
    ensures 0 <= s.writer < |s.calls| && s.writer < |t.calls| ==>
              var c, d := s.calls[s.writer], t.calls[s.writer];
              d.key == c.key && (d.pc == c.pc || (c.pc.Trying? && d.pc.Trying?))
  {
    if Outside(a) {
      OutsideKeeps(cfg, s, a, t);
    }
  }

  lemma SingleFlightStep(cfg: Config, s: State, a: Action, f: string, had: nat)
    requires SingleFlight(s, f, had) && Exclusive(s) && TodoCached(s) && Enabled(cfg, s, a)
    ensures SingleFlight(Step(cfg, s, a), f, had)
  {
    match a
    case Lock(i) => LockCounts(cfg, s, i, f, had);
    case Recheck(i, c, failed) => RecheckCounts(cfg, s, i, c, failed, f, had);
    case StartTrying(i) =>
      assert s.writer == i && !Pending(s, i);
    case Download(i) => DownloadCounts(cfg, s, i, f, had);
    case GiveUp(i) => assert s.writer == i;
    case RemoveKey(id, actual) =>
      LoseCounts(s, {actual}, Spellings(s, id), Upper(id), f, had);
    case OutsideDelete(name) => LoseCounts(s, {name}, {}, Upper(name), f, had);
    case ListReplace(k, times, unseen) => ReplaceCounts(s, k, times, unseen, f, had);
    case _ => OtherCounts(cfg, s, a, f, had);
  }

  ghost predicate Inv(s: State)
  {
    Exclusive(s) && TodoCached(s) && SpellsItsId(s) && FoundStays(s)
  }

  lemma InvStep(cfg: Config, s: State, a: Action)
    requires Inv(s) && Enabled(cfg, s, a)
    ensures Inv(Step(cfg, s, a))
  {
    var t := Step(cfg, s, a);
    ExclusiveStep(cfg, s, a, t);
    TodoCachedStep(cfg, s, a, t);
    SpellsItsIdStep(cfg, s, a, t);
    FoundStaysStep(cfg, s, a, t);
  }

  lemma {:induction false} ExecutionKeeps(cfg: Config, s: State, run: seq<Action>, t: State, f: string, had: nat)
    requires Inv(s) && SingleFlight(s, f, had) && Execution(cfg, s, run, t)
    ensures Inv(t) && SingleFlight(t, f, had)
    decreases |run|
  {
    if run != [] {
      InvStep(cfg, s, run[0]);
      SingleFlightStep(cfg, s, run[0], f, had);
      ExecutionKeeps(cfg, Step(cfg, s, run[0]), run[1..], t, f, had);
    }
  }
}
