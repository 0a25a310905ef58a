/** What FetchKey, HasKey and RemoveKey promise each other, and when a key is fetched again. */
module KeyManagerTheorems {
  import opened KeyManager

  /** Single flight: in every run a folded key id is downloaded at most once more than it
      was lost from cache or disk or could not be looked at; once less if it was there from
      the start. */
  lemma DownloadedOnce(cfg: Config, s: State, run: seq<Action>, t: State, f: string)
    requires Fresh(s) && Execution(cfg, s, run, t)
    ensures Count(t.downloads, f) + (if Known(s, f) then 1 else 0) <= Count(t.losses, f) + Count(t.unreadable, f) + 1
  {
    ExecutionKeeps(cfg, s, run, t, f, if Known(s, f) then 1 else 0);
  }

  /** The write lock keeps all but one call out of recheck and download. */
  lemma OneInside(cfg: Config, s: State, run: seq<Action>, t: State, i: nat, j: nat)
    requires Fresh(s) && Execution(cfg, s, run, t)
    requires i < |t.calls| && j < |t.calls| && Locked(t.calls[i].pc) && Locked(t.calls[j].pc)
    ensures i == j
  {
    ExecutionKeeps(cfg, s, run, t, "", if Known(s, "") then 1 else 0);
  }

  // ---------------------------------------------------------------- a nil return

  /** The three steps that return nil, and what they find in the cache. */
  lemma NilSteps(cfg: Config, t: State, a: Action, i: nat, u: State)
    requires Enabled(cfg, t, a) && u == Step(cfg, t, a)
    requires i < |t.calls| && !t.calls[i].pc.Returned? && u.calls[i].pc == Returned(true)
    ensures (a.Stat? || a.Recheck? || a.Download?) && a.i == i
    ensures a.Stat? || a.Recheck? ==> u.keyCache == t.keyCache
    ensures a.Download? ==> t.calls[i].key in u.keyCache
  {
  }

  lemma ReturnsHaving(cfg: Config, t: State, a: Action, i: nat, u: State)
    requires Inv(t) && Enabled(cfg, t, a) && u == Step(cfg, t, a)
    requires i < |t.calls| && !t.calls[i].pc.Returned? && u.calls[i].pc == Returned(true)
    ensures HasKey(u, t.calls[i].key) <==> !(t.calls[i].pc.Statting? && t.calls[i].dropped)
  {
    var call := t.calls[i];
    NilSteps(cfg, t, a, i, u);
    if a.Recheck? {
      assert a.c in u.keyCache && EqualFold(a.c, call.key);
    } else if a.Download? {
      assert call.key in u.keyCache && EqualFold(call.key, call.key);
    }
  }

  /** When FetchKey returns nil, HasKey holds for the normalized id exactly unless, after the
      call had found the key in the cache, a RemoveKey or a ListAvailableKeys took it out
      and nothing brought it back; under the write lock nothing can. */
  lemma NilMeansHasKey(cfg: Config, s: State, run: seq<Action>, t: State, a: Action, i: nat)
    requires Fresh(s) && Execution(cfg, s, run, t) && Enabled(cfg, t, a)
    requires i < |t.calls| && !t.calls[i].pc.Returned? && Step(cfg, t, a).calls[i].pc == Returned(true)
    ensures HasKey(Step(cfg, t, a), Normalize(t.calls[i].id)) <==> !(t.calls[i].pc.Statting? && t.calls[i].dropped)
  {
    ExecutionKeeps(cfg, s, run, t, "", if Known(s, "") then 1 else 0);
    var call, u := t.calls[i], Step(cfg, t, a);
    ReturnsHaving(cfg, t, a, i, u);
    NormalizeIsUpper(call.id);
    SameHasKey(u, call.key, Normalize(call.id));
  }

  lemma SameHasKey(s: State, a: string, b: string)
    requires EqualFold(a, b)
    ensures HasKey(s, a) <==> HasKey(s, b)
  {
  }

  lemma Chain(cfg: Config, s: State, a: Action, rest: seq<Action>, t: State)
    requires Enabled(cfg, s, a) && Execution(cfg, Step(cfg, s, a), rest, t)
    ensures Execution(cfg, s, [a] + rest, t)
  {
    assert ([a] + rest)[1..] == rest;
  }

  /** The exception does occur: a RemoveKey by another spelling, between the look at the
      cache and the look at the file, and FetchKey returns nil for a key that is gone. */
  lemma NilWithoutKey(cfg: Config, s: State, kept: string, gone: string)
    requires Fresh(s) && cfg.autoRetrieve && kept == Normalize(kept) && EqualFold(kept, gone) && gone != kept
    requires kept in s.keyCache && gone in s.keyCache && s.now - s.keyCache[kept] < cfg.ttl
    ensures exists t: State ::
              Execution(cfg, s, [CallFetch(kept), ScanHit(0, kept), RemoveKey(gone, gone), Stat(0, false)], t)
              && t.calls != [] && t.calls[0].pc == Returned(true) && !HasKey(t, kept)
  {
    var a, b, c, d := CallFetch(kept), ScanHit(0, kept), RemoveKey(gone, gone), Stat(0, false);
    var s1 := Step(cfg, s, a);
    assert s1.calls == [Call(kept, kept, Scanning, false)];
    var s2 := Step(cfg, s1, b);
    assert s2.calls == [Call(kept, kept, Statting(s.keyCache[kept]), false)];
    var t := RemovedMeanwhile(cfg, s2, kept, gone);
    Chain(cfg, s1, b, [c, d], t);
    Chain(cfg, s, a, [b, c, d], t);
    assert [b] + [c, d] == [b, c, d] && [a] + [b, c, d] == [a, b, c, d];
  }

  /** The second half of that run. */
  lemma RemovedMeanwhile(cfg: Config, s: State, kept: string, gone: string) returns (t: State)
    requires s.writer == NOBODY && EqualFold(kept, gone) && gone != kept && gone in s.keyCache && kept in s.files
    requires kept in s.keyCache && s.now - s.keyCache[kept] < cfg.ttl
    requires |s.calls| == 1 && s.calls[0].key == kept && s.calls[0].pc == Statting(s.keyCache[kept])
    ensures Execution(cfg, s, [RemoveKey(gone, gone), Stat(0, false)], t)
    ensures t.calls != [] && t.calls[0].pc == Returned(true) && !HasKey(t, kept)
  {
    var c, d := RemoveKey(gone, gone), Stat(0, false);
    assert HasKey(s, gone);
    var s3 := Step(cfg, s, c);
    assert kept in s3.files && s3.calls[0].pc == s.calls[0].pc && s3.calls[0].key == kept;
    t := Step(cfg, s3, d);
    assert !HasKey(t, kept);
    Chain(cfg, s3, d, [], t);
    Chain(cfg, s, c, [d], t);
    assert [d] + [] == [d] && [c] + [d] == [c, d];
  }

  // ---------------------------------------------------------------- HasKey and the 0x prefix

  predicate Prefixed(id: string)
  {
    |id| >= 2 && Upper(id[..2]) == "0X"
  }

  lemma PrefixFolds(a: string, b: string)
    requires EqualFold(a, b)
    ensures Prefixed(a) <==> Prefixed(b)
  {
    assert |Upper(a)| == |a| && |Upper(b)| == |b|;
    if |a| >= 2 {
      assert Upper(a)[..2] == Upper(a[..2]) && Upper(b)[..2] == Upper(b[..2]);
    }
  }

  /** HasKey sees the same as FetchKey for an id without 0x in front. */
  lemma HasKeyWithoutPrefix(s: State, id: string)
    requires !Prefixed(id)
    ensures HasKey(s, id) <==> HasKey(s, Normalize(id))
  {
    if |id| >= 2 {
      assert Upper(id)[..2] == Upper(id[..2]);
    }
    NormalizeIsUpper(id);
    UpperTwice(id);
    assert forall c :: EqualFold(c, id) <==> EqualFold(c, Normalize(id));
  }

  /** With 0x in front it finds nothing, whatever FetchKey fetched for that very id, as long
      as no cached name starts with 0x itself. */
  lemma HasKeyMissesPrefixed(s: State, id: string)
    requires Prefixed(id) && forall c :: c in s.keyCache ==> !Prefixed(c)
    ensures !HasKey(s, id)
  {
    forall c | c in s.keyCache ensures !EqualFold(c, id) {
      if EqualFold(c, id) {
        PrefixFolds(c, id);
      }
    }
  }

  // ---------------------------------------------------------------- RemoveKey

  /** RemoveKey forgets every spelling of the key and deletes one file: a file of the key
      stays on disk exactly if there was one under another name than the one deleted. */
  lemma RemoveLeavesFileIff(cfg: Config, s: State, id: string, actual: string)
    requires Enabled(cfg, s, RemoveKey(id, actual))
    ensures var t := Step(cfg, s, RemoveKey(id, actual));
            && !HasKey(t, id)
            && ((exists n :: n in t.files && EqualFold(n, id))
                <==> exists n :: n in s.files && EqualFold(n, id) && n != actual)
  {
    var t := Step(cfg, s, RemoveKey(id, actual));
    assert t.files == s.files - {actual};
    assert forall c :: c in t.keyCache ==> !EqualFold(c, id);
  }

  /** It reports success all the same, and changes neither cache nor disk, exactly when the
      id matches no cached name and names no file. */
  lemma RemoveDoesNothingIff(cfg: Config, s: State, id: string, actual: string)
    requires Enabled(cfg, s, RemoveKey(id, actual))
    ensures var t := Step(cfg, s, RemoveKey(id, actual));
            t.keyCache == s.keyCache && t.files == s.files <==> !HasKey(s, id) && id !in s.files
  {
    var t := Step(cfg, s, RemoveKey(id, actual));
    if HasKey(s, id) {
      assert actual in s.keyCache && actual !in t.keyCache;
    } else {
      assert t.keyCache == s.keyCache;
      assert id in s.files ==> id !in t.files;
    }
  }

  /** So with 0x in front it leaves the very key in place that FetchKey fetched for the id. */
  lemma RemoveMissesPrefixed(cfg: Config, s: State, id: string, actual: string)
    requires Enabled(cfg, s, RemoveKey(id, actual)) && Prefixed(id)
    requires (forall c :: c in s.keyCache ==> !Prefixed(c)) && (forall n :: n in s.files ==> !Prefixed(n))
    ensures var t := Step(cfg, s, RemoveKey(id, actual));
            t.keyCache == s.keyCache && t.files == s.files && (HasKey(t, Normalize(id)) <==> HasKey(s, Normalize(id)))
  {
    HasKeyMissesPrefixed(s, id);
    RemoveDoesNothingIff(cfg, s, id, actual);
  }

  // ---------------------------------------------------------------- fetched again

  /** A step that leaves the file of spelling c alone and does not fail to look at it. */
  predicate Spares(s: State, a: Action, c: string)
  {
    match a
    case OutsideDelete(name) => name != c
    case RemoveKey(_, actual) => actual != c
    case Recheck(_, n, failed) => !(n == c && failed)
    case ListReplace(k, _, unseen) =>
      k < |s.listings| && s.listings[k].Read? && (c in s.listings[k].names ==> c !in unseen)
    case _ => true
  }

  /** A RemoveKey of the key, or a ListAvailableKeys that read the directory before the file
      was there. */
  predicate Forgets(s: State, a: Action, c: string)
  {
    match a
    case RemoveKey(id, _) => EqualFold(id, c)
    case ListReplace(k, _, _) => k < |s.listings| && s.listings[k].Read? && c !in s.listings[k].names
    case _ => false
  }

  /** While its file stays, a spelling leaves the cache by exactly these steps. */
  lemma ForgottenIff(cfg: Config, s: State, a: Action, c: string)
    requires Enabled(cfg, s, a) && Spares(s, a, c) && c in s.files && c in s.keyCache
    ensures var t := Step(cfg, s, a); c in t.files && (c !in t.keyCache <==> Forgets(s, a, c))
  {
    var t := Step(cfg, s, a);
    match a
    case RemoveKey(id, actual) => assert c in Spellings(s, id) <==> EqualFold(c, id);
    case ListReplace(k, times, _) => assert t.keyCache == times;
    case OutsideDelete(name) => assert t.keyCache == s.keyCache;
    case _ =>
  }

  /** The call that holds the lock will download this key unless all servers fail. */
  predicate Downloading(cfg: Config, s: State, c: string)
  {
    && 0 <= s.writer < |s.calls| && EqualFold(s.calls[s.writer].key, c)
    && match s.calls[s.writer].pc
       case Rechecking(todo) => c !in todo
       case Trying(server) => server < Servers(cfg)
       case _ => false
  }

  ghost predicate Safe(cfg: Config, s: State, c: string)
  {
    c in s.keyCache && c in s.files && !Downloading(cfg, s, c)
  }

  lemma LockStaysSafe(cfg: Config, s: State, i: nat, c: string)
    requires Safe(cfg, s, c) && Enabled(cfg, s, Lock(i))
    ensures Safe(cfg, Step(cfg, s, Lock(i)), c)
  {
    if EqualFold(s.calls[i].key, c) {
      assert c in Spellings(s, s.calls[i].key);
    }
  }

  lemma InsideStaysSafe(cfg: Config, s: State, a: Action, c: string)
    requires Inv(s) && Safe(cfg, s, c) && Enabled(cfg, s, a) && Spares(s, a, c)
    requires a.Recheck? || a.StartTrying? || a.FailServer? || a.GiveUp?
    ensures Safe(cfg, Step(cfg, s, a), c) && Step(cfg, s, a).downloads == s.downloads
  {
    assert Locked(s.calls[a.i].pc) && s.writer == a.i;
  }

  lemma DownloadStaysSafe(cfg: Config, s: State, i: nat, c: string)
    requires Inv(s) && Safe(cfg, s, c) && Enabled(cfg, s, Download(i))
    ensures Safe(cfg, Step(cfg, s, Download(i)), c)
    ensures Count(Step(cfg, s, Download(i)).downloads, Upper(c)) == Count(s.downloads, Upper(c))
  {
    assert Locked(s.calls[i].pc) && s.writer == i;
    assert !EqualFold(s.calls[i].key, c);
  }

  lemma ForgettingStaysSafe(cfg: Config, s: State, a: Action, c: string)
    requires Safe(cfg, s, c) && Enabled(cfg, s, a) && Spares(s, a, c) && !Forgets(s, a, c)
    requires Forgetting(a) || Outside(a)
    ensures Safe(cfg, Step(cfg, s, a), c) && Step(cfg, s, a).downloads == s.downloads
  {
    ForgottenIff(cfg, s, a, c);
    if Forgetting(a) {
      ForgettingKeepsCalls(cfg, s, a, Step(cfg, s, a));
    } else {
      OutsideKeeps(cfg, s, a, Step(cfg, s, a));
    }
  }

  lemma UnlockedStaysSafe(cfg: Config, s: State, a: Action, c: string)
    requires Inv(s) && Safe(cfg, s, c) && Enabled(cfg, s, a)
    requires a.CallFetch? || a.ScanHit? || a.ScanMiss? || a.Stat?
    ensures Safe(cfg, Step(cfg, s, a), c) && Step(cfg, s, a).downloads == s.downloads
  {
    var t := Step(cfg, s, a);
    OtherKeeps(cfg, s, a, t);
    UnlockedKeepsHolder(cfg, s, a, t);
  }

  lemma UnlockedKeepsHolder(cfg: Config, s: State, a: Action, t: State)
    requires Exclusive(s) && Enabled(cfg, s, a) && t == Step(cfg, s, a)
    requires a.CallFetch? || a.ScanHit? || a.ScanMiss? || a.Stat?
    ensures t.files == s.files && (s.writer == NOBODY || 0 <= s.writer < |s.calls| <= |t.calls|)
    ensures s.writer != NOBODY ==> t.calls[s.writer] == s.calls[s.writer]
  {
    if a.CallFetch? {
      assert t.calls[..|s.calls|] == s.calls;
    } else {
      assert !Locked(s.calls[a.i].pc);
      MoveKeeps(cfg, s, a, a.i, t);
    }
  }

  lemma SafeStays(cfg: Config, s: State, a: Action, c: string)
    requires Inv(s) && Safe(cfg, s, c) && Enabled(cfg, s, a) && Spares(s, a, c) && !Forgets(s, a, c)
    ensures Safe(cfg, Step(cfg, s, a), c)
    ensures Count(Step(cfg, s, a).downloads, Upper(c)) == Count(s.downloads, Upper(c))
  {
    if a.Lock? {
      LockStaysSafe(cfg, s, a.i, c);
    } else if a.Download? {
      DownloadStaysSafe(cfg, s, a.i, c);
    } else if Forgetting(a) || Outside(a) {
      ForgettingStaysSafe(cfg, s, a, c);
    } else if a.CallFetch? || a.ScanHit? || a.ScanMiss? || a.Stat? {
      UnlockedStaysSafe(cfg, s, a, c);
    } else {
      InsideStaysSafe(cfg, s, a, c);
    }
  }

  /** A run that spares the file of spelling c throughout and never forgets it. */
  ghost predicate SparingRun(cfg: Config, s: State, run: seq<Action>, t: State, c: string)
    decreases |run|
  {
    if run == [] then s == t
    else
      && Enabled(cfg, s, run[0]) && Spares(s, run[0], c) && !Forgets(s, run[0], c)
      && SparingRun(cfg, Step(cfg, s, run[0]), run[1..], t, c)
  }

  lemma {:induction false} SafeRun(cfg: Config, s: State, run: seq<Action>, t: State, c: string)
    requires Inv(s) && Safe(cfg, s, c) && SparingRun(cfg, s, run, t, c)
    ensures Safe(cfg, t, c) && Count(t.downloads, Upper(c)) == Count(s.downloads, Upper(c))
    decreases |run|
  {
    if run != [] {
      InvStep(cfg, s, run[0]);
      SafeStays(cfg, s, run[0], c);
      SafeRun(cfg, Step(cfg, s, run[0]), run[1..], t, c);
    }
  }

  lemma SparingOne(cfg: Config, s: State, a: Action, c: string)
    requires Enabled(cfg, s, a) && Spares(s, a, c) && !Forgets(s, a, c)
    ensures SparingRun(cfg, s, [a], Step(cfg, s, a), c)
  {
    assert [a][1..] == [];
  }

  lemma {:induction false} SparingJoin(cfg: Config, s: State, run: seq<Action>, t: State, more: seq<Action>,
            u: State, c: string)
    requires SparingRun(cfg, s, run, t, c) && SparingRun(cfg, t, more, u, c)
    ensures SparingRun(cfg, s, run + more, u, c)
    decreases |run|
  {
    if run == [] {
      assert run + more == more;
    } else {
      assert (run + more)[1..] == run[1..] + more;
      SparingJoin(cfg, Step(cfg, s, run[0]), run[1..], t, more, u, c);
    }
  }

  lemma {:induction false} SparingInv(cfg: Config, s: State, run: seq<Action>, t: State, c: string)
    requires Inv(s) && SparingRun(cfg, s, run, t, c)
    ensures Inv(t)
    decreases |run|
  {
    if run != [] {
      InvStep(cfg, s, run[0]);
      SparingInv(cfg, Step(cfg, s, run[0]), run[1..], t, c);
    }
  }

  /** Continues a sparing run by one step. */
  lemma Continue(cfg: Config, s: State, run: seq<Action>, t: State, a: Action, c: string)
    returns (more: seq<Action>, u: State)
    requires SparingRun(cfg, s, run, t, c) && Enabled(cfg, t, a) && Spares(t, a, c) && !Forgets(t, a, c)
    ensures SparingRun(cfg, s, more, u, c) && u == Step(cfg, t, a)
  {
    u := Step(cfg, t, a);
    more := run + [a];
    SparingOne(cfg, t, a, c);
    SparingJoin(cfg, s, run, t, [a], u, c);
  }

  /** What stays the same while a call goes about under the lock. */
  predicate SameStore(s: State, t: State)
  {
    t.keyCache == s.keyCache && t.files == s.files && t.downloads == s.downloads && |t.calls| == |s.calls|
  }

  /** The call under the lock looks at all spellings it has left and finds none it can read. */
  lemma {:induction false} FinishRecheck(cfg: Config, s: State, i: nat, c: string) returns (run: seq<Action>, t: State)
    requires i < |s.calls| && s.calls[i].pc.Rechecking? && c !in s.calls[i].pc.todo
    ensures SparingRun(cfg, s, run, t, c) && SameStore(s, t) && t.writer == s.writer
    ensures t.calls[i] == s.calls[i].(pc := Rechecking({}))
    decreases |s.calls[i].pc.todo|
  {
    if s.calls[i].pc.todo == {} {
      run, t := [], s;
    } else {
      var n :| n in s.calls[i].pc.todo;
      var a := Recheck(i, n, true);
      var u := Step(cfg, s, a);
      assert u.calls[i].pc.todo == s.calls[i].pc.todo - {n};
      var rest;
      rest, t := FinishRecheck(cfg, u, i, c);
      run := [a] + rest;
      assert run[1..] == rest;
    }
  }

  /** All keyservers fail and the lock is free again. */
  lemma {:induction false} FinishTrying(cfg: Config, s: State, i: nat, c: string) returns (run: seq<Action>, t: State)
    requires i < |s.calls| && s.calls[i].pc.Trying?
    ensures SparingRun(cfg, s, run, t, c) && SameStore(s, t) && t.writer == NOBODY
    decreases Servers(cfg) - s.calls[i].pc.server
  {
    var server := s.calls[i].pc.server;
    var a := if server < Servers(cfg) then FailServer(i, false) else GiveUp(i);
    var u := Step(cfg, s, a);
    if server < Servers(cfg) {
      var rest;
      rest, t := FinishTrying(cfg, u, i, c);
      run := [a] + rest;
      assert run[1..] == rest;
    } else {
      run, t := [a], u;
      SparingOne(cfg, s, a, c);
    }
  }

  /** Whatever call holds the lock can fail and release it. */
  lemma ReleaseLock(cfg: Config, s: State, c: string) returns (run: seq<Action>, t: State)
    requires Inv(s) && c !in s.keyCache
    ensures SparingRun(cfg, s, run, t, c) && SameStore(s, t) && t.writer == NOBODY
  {
    if s.writer == NOBODY {
      run, t := [], s;
    } else {
      var i := s.writer;
      assert Locked(s.calls[i].pc);
      run, t := [], s;
      if s.calls[i].pc.Rechecking? {
        var first, u := FinishRecheck(cfg, s, i, c);
        run, t := Continue(cfg, s, first, u, StartTrying(i), c);
      }
      var rest, v := FinishTrying(cfg, t, i, c);
      SparingJoin(cfg, s, run, t, rest, v, c);
      run, t := run + rest, v;
    }
  }

  /** Cached spellings of the key that are on disk. */
  function Alive(s: State, c: string): set<string>
  {
    set n | n in s.keyCache && n in s.files && EqualFold(n, c)
  }

  /** The files of all other spellings are deleted from outside. */
  lemma {:induction false} DeleteOthers(cfg: Config, s: State, c: string) returns (run: seq<Action>, t: State)
    requires Inv(s) && c !in s.keyCache && s.writer == NOBODY
    ensures SparingRun(cfg, s, run, t, c) && Alive(t, c) == {}
    ensures t.keyCache == s.keyCache && t.calls == s.calls && t.writer == NOBODY && t.downloads == s.downloads
    decreases |Alive(s, c)|
  {
    if Alive(s, c) == {} {
      run, t := [], s;
    } else {
      var n :| n in Alive(s, c);
      var a := OutsideDelete(n);
      var u := Step(cfg, s, a);
      InvStep(cfg, s, a);
      assert Alive(u, c) == Alive(s, c) - {n};
      var rest;
      rest, t := DeleteOthers(cfg, u, c);
      run := [a] + rest;
      assert run[1..] == rest;
    }
  }

  /** A FetchKey for the key comes to the lock. */
  lemma ComeToLock(cfg: Config, s: State, c: string) returns (run: seq<Action>, t: State)
    requires cfg.autoRetrieve && s.writer == NOBODY && Alive(s, c) == {}
    ensures SparingRun(cfg, s, run, t, c)
    ensures t.keyCache == s.keyCache && t.files == s.files && t.downloads == s.downloads
    ensures t.writer == NOBODY && |t.calls| == |s.calls| + 1
    ensures t.calls[|s.calls|].pc == AwaitingLock && EqualFold(t.calls[|s.calls|].key, c)
  {
    var i, id := |s.calls|, "0X" + Upper(c);
    NormalizePrefixed(c);
    UpperTwice(c);
    var s1;
    run, s1 := Continue(cfg, s, [], s, CallFetch(id), c);
    assert s1.calls[i] == Call(id, Upper(c), Scanning, false);
    if HasKey(s1, Upper(c)) {
      var n :| n in s1.keyCache && EqualFold(n, Upper(c));
      assert n !in s1.files by {
        assert n !in Alive(s, c);
      }
      var s2;
      run, s2 := Continue(cfg, s, run, s1, ScanHit(i, n), c);
      run, t := Continue(cfg, s, run, s2, Stat(i, false), c);
    } else {
      run, t := Continue(cfg, s, run, s1, ScanMiss(i), c);
    }
  }

  lemma NormalizePrefixed(c: string)
    ensures Normalize("0X" + Upper(c)) == Upper(c)
  {
    UpperTwice(c);
    var id := "0X" + Upper(c);
    assert Upper(id)[..2] == "0X";
    assert Upper(id)[2..] == Upper(Upper(c));
  }

  /** And having the lock, it downloads. */
  lemma DownloadNow(cfg: Config, s: State, i: nat, c: string) returns (run: seq<Action>, t: State)
    requires i < |s.calls| && EqualFold(s.calls[i].key, c)
    requires s.calls[i].pc.Rechecking? && c !in s.calls[i].pc.todo
    ensures SparingRun(cfg, s, run, t, c) && Count(t.downloads, Upper(c)) == Count(s.downloads, Upper(c)) + 1
  {
    var u;
    run, u := FinishRecheck(cfg, s, i, c);
    var v;
    run, v := Continue(cfg, s, run, u, StartTrying(i), c);
    run, t := Continue(cfg, s, run, v, Download(i), c);
  }

  /** A run in which the file of spelling c never goes away, is never unreadable and is
      never forgotten, and in which the key is downloaded. */
  ghost predicate FetchedAgain(cfg: Config, s: State, c: string)
  {
    exists run, t: State :: SparingRun(cfg, s, run, t, c) && Count(t.downloads, Upper(c)) > Count(s.downloads, Upper(c))
  }

  lemma UncachedIsFetched(cfg: Config, s: State, c: string)
    requires Inv(s) && cfg.autoRetrieve && c !in s.keyCache
    ensures FetchedAgain(cfg, s, c)
  {
    var r1, s1 := ReleaseLock(cfg, s, c);
    SparingInv(cfg, s, r1, s1, c);
    var r2, s2 := DeleteOthers(cfg, s1, c);
    var r3, s3 := ComeToLock(cfg, s2, c);
    var i := |s2.calls|;
    var r4, s4 := Continue(cfg, s2, r3, s3, Lock(i), c);
    var r5, s5 := DownloadNow(cfg, s4, i, c);
    SparingJoin(cfg, s2, r4, s4, r5, s5, c);
    SparingJoin(cfg, s1, r2, s2, r4 + r5, s5, c);
    SparingJoin(cfg, s, r1, s1, r2 + (r4 + r5), s5, c);
  }

  lemma DownloadingIsFetched(cfg: Config, s: State, c: string)
    requires Inv(s) && Downloading(cfg, s, c)
    ensures FetchedAgain(cfg, s, c)
  {
    var i := s.writer;
    if s.calls[i].pc.Rechecking? {
      var run, t := DownloadNow(cfg, s, i, c);
    } else {
      var run, t := Continue(cfg, s, [], s, Download(i), c);
    }
  }

  /** A key whose file stays on disk and can be read is downloaded again exactly if the
      file's name is not in the cache, or a call for the key is past its second look at the
      cache. By ForgottenIff a name that was cached leaves the cache by a RemoveKey that
      deletes another file of the key, or by a ListAvailableKeys that read the directory
      before the file was there. */
  lemma FetchedAgainIff(cfg: Config, s: State, c: string)
    requires Inv(s) && cfg.autoRetrieve && c in s.files
    ensures FetchedAgain(cfg, s, c) <==> c !in s.keyCache || Downloading(cfg, s, c)
  {
    if c !in s.keyCache {
      UncachedIsFetched(cfg, s, c);
    } else if Downloading(cfg, s, c) {
      DownloadingIsFetched(cfg, s, c);
    } else if FetchedAgain(cfg, s, c) {
      var run, t: State :| SparingRun(cfg, s, run, t, c) && Count(t.downloads, Upper(c)) > Count(s.downloads, Upper(c));
      SafeRun(cfg, s, run, t, c);
    }
  }

  /** Every step spares the file of spelling c, forgetting or not. */
  ghost predicate SparedThroughout(cfg: Config, s: State, run: seq<Action>, c: string)
    decreases |run|
  {
    run == []
    || (Enabled(cfg, s, run[0]) && Spares(s, run[0], c) && SparedThroughout(cfg, Step(cfg, s, run[0]), run[1..], c))
  }

  /** Some step of the run forgets the name. */
  ghost predicate ForgottenIn(cfg: Config, s: State, run: seq<Action>, c: string)
    requires SparedThroughout(cfg, s, run, c)
    decreases |run|
  {
    run != [] && (Forgets(s, run[0], c) || ForgottenIn(cfg, Step(cfg, s, run[0]), run[1..], c))
  }

  /** From some state of the run on, the key can be downloaded again. */
  ghost predicate FetchedAfter(cfg: Config, s: State, run: seq<Action>, c: string)
    requires SparedThroughout(cfg, s, run, c)
    decreases |run|
  {
    FetchedAgain(cfg, s, c) || (run != [] && FetchedAfter(cfg, Step(cfg, s, run[0]), run[1..], c))
  }

  /** Over a whole run: a key whose file never leaves the disk can be downloaded again from
      some point on exactly if the run contains a step that forgets it. */
  lemma {:induction false} FetchedAfterIffForgotten(cfg: Config, s: State, run: seq<Action>, c: string)
    requires Inv(s) && cfg.autoRetrieve && Safe(cfg, s, c) && SparedThroughout(cfg, s, run, c)
    ensures FetchedAfter(cfg, s, run, c) <==> ForgottenIn(cfg, s, run, c)
    decreases |run|
  {
    FetchedAgainIff(cfg, s, c);
    if run != [] {
      var t := Step(cfg, s, run[0]);
      InvStep(cfg, s, run[0]);
      ForgottenIff(cfg, s, run[0], c);
      if Forgets(s, run[0], c) {
        UncachedIsFetched(cfg, t, c);
      } else {
        SafeStays(cfg, s, run[0], c);
        FetchedAfterIffForgotten(cfg, t, run[1..], c);
      }
    }
  }
}
