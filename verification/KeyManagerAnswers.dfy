/** When FetchKey returns nil and when it returns an error, and how a call moves. */
module KeyManagerAnswers {
  import opened KeyManager

  predicate Pending(s: State, i: nat)
  {
    i < |s.calls| && !s.calls[i].pc.Returned?
  }

  /** A step of this call. */
  predicate Own(a: Action, i: nat)
  {
    Moves(a, i) || a == Download(i)
  }

  lemma OthersStay(cfg: Config, s: State, a: Action, i: nat, t: State)
    requires Enabled(cfg, s, a) && i < |s.calls| && !Own(a, i) && t == Step(cfg, s, a)
    ensures i < |t.calls| && t.calls[i].pc == s.calls[i].pc
  {
    if Forgetting(a) {
      ForgettingKeepsCalls(cfg, s, a, t);
    } else if Outside(a) {
      OutsideKeeps(cfg, s, a, t);
    } else if a.Download? {
      DownloadUnlocks(cfg, s, a.i, t);
    } else if !a.CallFetch? {
      MoveKeeps(cfg, s, a, a.i, t);
    }
  }

  /** FetchKey returns nil exactly when its found file is there, or cannot be looked at, and
      is younger than the time to live; when a recheck sees a cached spelling on disk; or when
      a keyserver delivers. */
  lemma NilIff(cfg: Config, s: State, a: Action, i: nat)
    requires Enabled(cfg, s, a) && Pending(s, i)
    ensures Step(cfg, s, a).calls[i].pc == Returned(true)
       <==> (&& a.Stat? && a.i == i && s.calls[i].pc.Statting?
             && (s.calls[i].key in s.files || a.failed) && s.now < s.calls[i].pc.fetchTime + cfg.ttl)
            || (a.Recheck? && a.i == i && s.calls[i].pc.Rechecking? && a.c in s.calls[i].pc.todo
                && a.c in s.files && !a.failed)
            || (a == Download(i) && s.calls[i].pc.Trying?)
  {
    if !Own(a, i) {
      OthersStay(cfg, s, a, i, Step(cfg, s, a));
    }
  }

  /** It returns an error exactly when all keyservers have failed under the lock, or right at
      the call when retrieval is off. */
  lemma ErrorIff(cfg: Config, s: State, a: Action, i: nat)
    requires Enabled(cfg, s, a)
    ensures Pending(s, i) ==>
              (Step(cfg, s, a).calls[i].pc == Returned(false)
               <==> a == GiveUp(i) && s.calls[i].pc.Trying?
                    && s.calls[i].pc.server >= (if cfg.servers == 0 then 1 else cfg.servers))
  {
    if i < |s.calls| && !Own(a, i) {
      OthersStay(cfg, s, a, i, Step(cfg, s, a));
    }
  }

  /** A call begins by scanning the cache for its id, or is an error at once. */
  lemma CallBegins(cfg: Config, s: State, a: Action)
    requires Enabled(cfg, s, a)
    ensures var calls := Step(cfg, s, a).calls;
            && |calls| == |s.calls| + (if a.CallFetch? then 1 else 0)
            && (a.CallFetch? ==>
                  && calls[|s.calls|].id == a.id
                  && calls[|s.calls|].pc == if cfg.autoRetrieve then Scanning else Returned(false))
  {
    if Forgetting(a) {
      ForgettingKeepsCalls(cfg, s, a, Step(cfg, s, a));
    }
  }

  /** An answer is final. */
  lemma AnswerStays(cfg: Config, s: State, a: Action, i: nat)
    requires Enabled(cfg, s, a) && i < |s.calls| && s.calls[i].pc.Returned?
    ensures |Step(cfg, s, a).calls| >= |s.calls| && Step(cfg, s, a).calls[i].pc == s.calls[i].pc
  {
    CallBegins(cfg, s, a);
    assert !Own(a, i);
    OthersStay(cfg, s, a, i, Step(cfg, s, a));
  }

  /** The way of a call to the keyservers: it queues for the lock when the cache has nothing,
      or its file is gone or too old; it looks up all cached spellings; it tries one server
      after the other. */
  lemma QueuesIff(cfg: Config, s: State, a: Action, i: nat)
    requires Enabled(cfg, s, a) && Pending(s, i)
    ensures var pc, next := s.calls[i].pc, Step(cfg, s, a).calls[i].pc;
            && (next != pc && next.Statting? <==> a.ScanHit? && a.i == i && pc == Scanning)
            && (next != pc && next == AwaitingLock <==>
                  (a == ScanMiss(i) && pc == Scanning
                   && forall c :: c in s.keyCache ==> Upper(c) != Upper(s.calls[i].key))
                  || (a.Stat? && a.i == i && pc.Statting?
                      && ((s.calls[i].key !in s.files && !a.failed) || s.now >= pc.fetchTime + cfg.ttl)))
  {
    if !Own(a, i) {
      OthersStay(cfg, s, a, i, Step(cfg, s, a));
    }
  }

  lemma UnderLockIff(cfg: Config, s: State, a: Action, i: nat)
    requires Enabled(cfg, s, a) && Pending(s, i)
    ensures var pc, next := s.calls[i].pc, Step(cfg, s, a).calls[i].pc;
            && (pc == AwaitingLock && next != pc <==> a == Lock(i))
            && (a == Lock(i) ==>
                  s.writer == NOBODY
                  && next == Rechecking(set c | c in s.keyCache && Upper(c) == Upper(s.calls[i].key)))
            && (next != pc && next == Trying(0) <==> a == StartTrying(i) && pc == Rechecking({}))
            && (pc.Trying? && next == Trying(pc.server + 1) <==> a.FailServer? && a.i == i)
  {
    if !Own(a, i) {
      OthersStay(cfg, s, a, i, Step(cfg, s, a));
    }
  }

  // ---------------------------------------------------------------- over runs

  /** How often a keyserver failed the call. */
  function Failures(run: seq<Action>, i: nat): nat
  {
    if run == [] then 0 else (if run[0].FailServer? && run[0].i == i then 1 else 0) + Failures(run[1..], i)
  }

  function AllServers(cfg: Config): nat
  {
    if cfg.servers == 0 then 1 else cfg.servers
  }

  /** The call has been failed n times: by the servers before the one it tries, by all if it
      gave up. */
  ghost predicate Tally(cfg: Config, s: State, i: nat, n: nat)
  {
    if i >= |s.calls| then n == 0
    else
      match s.calls[i].pc
      case Trying(server) => n == server <= AllServers(cfg)
      case Returned(ok) => !ok && cfg.autoRetrieve ==> n == AllServers(cfg)
      case _ => n == 0
  }

  lemma TallyStep(cfg: Config, s: State, a: Action, i: nat, n: nat)
    requires Tally(cfg, s, i, n) && Enabled(cfg, s, a)
    ensures Tally(cfg, Step(cfg, s, a), i, n + if a.FailServer? && a.i == i then 1 else 0)
  {
    CallBegins(cfg, s, a);
    if i < |s.calls| {
      if Own(a, i) {
        OwnTally(cfg, s, a, i, n);
      } else {
        OthersStay(cfg, s, a, i, Step(cfg, s, a));
      }
    }
  }

  lemma OwnTally(cfg: Config, s: State, a: Action, i: nat, n: nat)
    requires Tally(cfg, s, i, n) && Enabled(cfg, s, a) && i < |s.calls| && Own(a, i)
    ensures Tally(cfg, Step(cfg, s, a), i, n + if a.FailServer? && a.i == i then 1 else 0)
  {
  }

  lemma {:induction false} TallyRun(cfg: Config, s: State, run: seq<Action>, t: State, i: nat, n: nat)
    requires Tally(cfg, s, i, n) && Execution(cfg, s, run, t)
    ensures Tally(cfg, t, i, n + Failures(run, i))
    decreases |run|
  {
    if run != [] {
      TallyStep(cfg, s, run[0], i, n);
      TallyRun(cfg, Step(cfg, s, run[0]), run[1..], t, i, n + if run[0].FailServer? && run[0].i == i then 1 else 0);
    }
  }

  /** In every run, an error with retrieval on means that each keyserver failed the call once,
      and the default one did where none is configured. */
  lemma ErrorMeansAllFailed(cfg: Config, s: State, run: seq<Action>, t: State, i: nat)
    requires Fresh(s) && Execution(cfg, s, run, t) && cfg.autoRetrieve
    requires i < |t.calls| && t.calls[i].pc == Returned(false)
    ensures Failures(run, i) == if cfg.servers == 0 then 1 else cfg.servers
  {
    TallyRun(cfg, s, run, t, i, 0);
  }

  /** And with retrieval off every call is an error at once. */
  lemma OffMeansError(cfg: Config, s: State, id: string)
    requires !cfg.autoRetrieve
    ensures var t := Step(cfg, s, CallFetch(id)); t.calls[|s.calls|].pc == Returned(false)
  {
  }

  // ---------------------------------------------------------------- ids

  /** The same letter in either case. */
  predicate SameLetter(c: char, d: char)
  {
    c == d || ('a' <= c <= 'z' && d as int == c as int - 32) || ('a' <= d <= 'z' && c as int == d as int - 32)
  }

  lemma EqualFoldIff(a: string, b: string)
    ensures EqualFold(a, b) <==> |a| == |b| && forall i :: 0 <= i < |a| ==> SameLetter(a[i], b[i])
  {
    assert |Upper(a)| == |a| && |Upper(b)| == |b|;
    if |a| == |b| {
      assert forall i :: 0 <= i < |a| ==> (Upper(a)[i] == Upper(b)[i] <==> SameLetter(a[i], b[i]));
    }
  }

  /** FetchKey works with the id in capitals, without one 0x or 0X in front. */
  lemma NormalizeMeans(id: string)
    ensures var key := if |id| >= 2 && id[0] == '0' && (id[1] == 'x' || id[1] == 'X') then id[2..] else id;
            EqualFold(Normalize(id), key)
    ensures forall i :: 0 <= i < |Normalize(id)| ==> !('a' <= Normalize(id)[i] <= 'z')
  {
    var u := Upper(id);
    NormalizeIsUpper(id);
    if |id| >= 2 {
      assert u[..2] == [UpperChar(id[0]), UpperChar(id[1])];
      assert u[2..] == Upper(id[2..]);
    }
    UpperTwice(id);
    assert forall i :: 0 <= i < |Normalize(id)| ==> Upper(Normalize(id))[i] == UpperChar(Normalize(id)[i]);
  }

  // ---------------------------------------------------------------- cache, disk and records

  /** Which names are cached after a step. */
  lemma CachedAfter(cfg: Config, s: State, a: Action, c: string)
    requires Enabled(cfg, s, a)
    ensures c in Step(cfg, s, a).keyCache <==>
              match a
              case Download(i) => c == s.calls[i].key || c in s.keyCache
              case RemoveKey(id, _) => c in s.keyCache && Upper(c) != Upper(id)
              case ListReplace(k, _, unseen) => c in s.listings[k].names && c in s.files && c !in unseen
              case _ => c in s.keyCache
  {
  }

  /** A name keeps its time, a key just fetched gets the present one, and one listed that of
      its file. */
  lemma CachedTimes(cfg: Config, s: State, a: Action, c: string)
    requires Enabled(cfg, s, a) && c in Step(cfg, s, a).keyCache
    ensures Step(cfg, s, a).keyCache[c] ==
              match a
              case Download(i) => if c == s.calls[i].key then s.now else s.keyCache[c]
              case ListReplace(_, times, _) => times[c]
              case _ => s.keyCache[c]
  {
  }

  /** And the call that finds one goes by its spelling and time. */
  lemma FoundAs(cfg: Config, s: State, i: nat, c: string)
    requires Enabled(cfg, s, ScanHit(i, c))
    ensures c in s.keyCache && Upper(c) == Upper(s.calls[i].key)
    ensures Step(cfg, s, ScanHit(i, c)).calls[i].key == c
    ensures Step(cfg, s, ScanHit(i, c)).calls[i].pc == Statting(s.keyCache[c])
  {
  }

  /** Which files are on disk after a step. */
  lemma OnDiskAfter(cfg: Config, s: State, a: Action, n: string)
    requires Enabled(cfg, s, a)
    ensures n in Step(cfg, s, a).files <==>
              match a
              case Download(i) => n == s.calls[i].key || n in s.files
              case FailServer(i, partial) => (partial && n == s.calls[i].key) || n in s.files
              case RemoveKey(_, actual) => n != actual && n in s.files
              case OutsideDelete(name) => n != name && n in s.files
              case OutsideCreate(name) => n == name || n in s.files
              case _ => n in s.files
  {
  }

  /** Some spelling of the folded id is cached and on disk. */
  ghost predicate Cached(s: State, f: string)
  {
    exists c :: c in s.keyCache && c in s.files && Upper(c) == f
  }

  /** The records count what they are named for: each download, each step that took a cached
      key with its file, and each recheck that failed on a file that was there. */
  lemma RecordsCount(cfg: Config, s: State, a: Action, f: string)
    requires Enabled(cfg, s, a)
    ensures var t := Step(cfg, s, a);
            && Count(t.downloads, f) == Count(s.downloads, f)
                 + (if a.Download? && Upper(s.calls[a.i].key) == f then 1 else 0)
            && Count(t.unreadable, f) == Count(s.unreadable, f)
                 + (if a.Recheck? && a.failed && a.c in s.files && Upper(a.c) == f then 1 else 0)
  {
  }

  lemma LossesCount(cfg: Config, s: State, a: Action, f: string)
    requires Enabled(cfg, s, a)
    ensures var t := Step(cfg, s, a);
            Count(t.losses, f) == Count(s.losses, f)
              + (if (match a
                     case RemoveKey(id, _) => Upper(id) == f && Cached(s, f)
                     case OutsideDelete(name) => Upper(name) == f && name in s.keyCache
                     case ListReplace(_, _, _) => Cached(s, f) && !Cached(t, f)
                     case _ => false) then 1 else 0)
  {
    if a.ListReplace? {
      KnownId(s, f);
      KnownId(Step(cfg, s, a), f);
      assert Known(s, f) <==> Cached(s, f);
      assert Known(Step(cfg, s, a), f) <==> Cached(Step(cfg, s, a), f);
    } else if a.RemoveKey? {
      if Cached(s, f) && Upper(a.id) == f {
        var c :| c in s.keyCache && c in s.files && Upper(c) == f;
        assert c in Spellings(s, a.id);
      }
    }
  }

  /** Time goes on, calls and files come, and directories are read whenever; a RemoveKey goes
      by the cached spelling it finds and, like the end of a ListAvailableKeys, waits for the
      lock. */
  lemma HappensIff(cfg: Config, s: State, id: string, actual: string, k: nat, times: map<string, int>,
                   unseen: set<string>)
    ensures Enabled(cfg, s, Tick) && Enabled(cfg, s, CallFetch(id)) && Enabled(cfg, s, ListRead)
    ensures Enabled(cfg, s, OutsideCreate(id)) && (Enabled(cfg, s, OutsideDelete(id)) <==> id in s.files)
    ensures Enabled(cfg, s, RemoveKey(id, actual)) <==>
              s.writer == NOBODY
              && if exists c :: c in s.keyCache && Upper(c) == Upper(id) then
                   actual in s.keyCache && Upper(actual) == Upper(id)
                 else actual == id
    ensures Enabled(cfg, s, ListReplace(k, times, unseen)) <==>
              k < |s.listings| && s.listings[k].Read? && s.writer == NOBODY
              && forall n :: n in times <==> n in s.listings[k].names && n in s.files && n !in unseen
  {
    assert HasKey(s, id) <==> exists c :: c in s.keyCache && Upper(c) == Upper(id);
    if k < |s.listings| && s.listings[k].Read? {
      assert times.Keys == StillThere(s, k, unseen) <==>
             forall n :: n in times <==> n in s.listings[k].names && n in s.files && n !in unseen;
    }
  }

  /** The clock moves by a tick only, and a ListAvailableKeys reads the directory once and
      replaces the cache once. */
  lemma ClockAndListings(cfg: Config, s: State, a: Action)
    requires Enabled(cfg, s, a)
    ensures Step(cfg, s, a).now == if a == Tick then s.now + 1 else s.now
    ensures !a.ListRead? && !a.ListReplace? ==> Step(cfg, s, a).listings == s.listings
    ensures a.ListRead? ==> Step(cfg, s, a).listings == s.listings + [Read(s.files)]
    ensures a.ListReplace? ==> Step(cfg, s, a).listings == s.listings[a.k := Done]
  {
  }
}
