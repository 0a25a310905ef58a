/** What holds of the prefetcher in every reachable state, and how its operations drain. */
module PrefetcherTheorems {
  import opened Sums
  import opened Prefetcher

  lemma ReachableCounts(maxActive: nat, s: State)
    requires Reachable(maxActive, s)
    ensures Bounded(maxActive, s) && Counts(s) && Waits(s)
  {
    var run :| Execution(Init(maxActive), run, s);
    InitKeeps(maxActive);
    RunCounts(maxActive, Init(maxActive), run, s);
  }

  lemma ReachableOwned(maxActive: nat, s: State)
    requires Reachable(maxActive, s)
    ensures Owned(s)
  {
    var run :| Execution(Init(maxActive), run, s);
    InitKeeps(maxActive);
    RunOwned(Init(maxActive), run, s);
  }

  lemma ReachableAccounted(maxActive: nat, s: State)
    requires Reachable(maxActive, s)
    ensures Accounted(s) && FailuresRight(s)
  {
    var run :| Execution(Init(maxActive), run, s);
    InitKeeps(maxActive);
    RunAccounted(Init(maxActive), run, s);
  }

  // ---------------------------------------------------------------- bookkeeping

  lemma {:induction false} CollectIn<T, U>(s: seq<T>, f: T -> multiset<U>, x: U)
    ensures x in Collect(s, f) <==> exists i :: 0 <= i < |s| && x in f(s[i])
  {
    if s != [] {
      CollectIn(s[1..], f, x);
      assert forall i :: 0 < i < |s| ==> s[i] == s[1..][i - 1];
      assert forall i :: 0 <= i < |s[1..]| ==> s[1..][i] == s[i + 1];
    }
  }

  /** In every interleaving the counter is the number of workers inside processSingleURL,
      and the wait group counts the outer fetch goroutines running or about to start. */
  lemma Bookkeeping(maxActive: nat, s: State)
    requires Reachable(maxActive, s)
    ensures s.inProgress == Sum(s.workers, Inside) && 0 <= s.inProgress <= maxActive
    ensures s.wg == Sum(s.workers, Owed) + Sum(s.fetches, Open)
    ensures s.wg == 0 <==> (forall w :: 0 <= w < |s.workers| ==> !s.workers[w].Added?)
                           && (forall k :: 0 <= k < |s.fetches| ==> s.fetches[k].pc.Finished?)
  {
    ReachableCounts(maxActive, s);
    SumBound(s.workers, Inside);
    SumZero(s.workers, Owed);
    SumZero(s.fetches, Open);
  }

  predicate WorkerHolds(w: WorkerPc, id: Id)
  {
    (w.Stored? || w.Added?) && w.id == id
  }

  predicate FetchHolds(f: Fetch, id: Id)
  {
    (f.pc.Waiting? || f.pc.Deleting?) && f.id == id
  }

  /** Some goroutine has stored the key and not yet deleted it. */
  predicate Held(s: State, id: Id)
  {
    || (exists w :: 0 <= w < |s.workers| && WorkerHolds(s.workers[w], id))
    || (exists k :: 0 <= k < |s.fetches| && FetchHolds(s.fetches[k], id))
  }

  lemma WorkersHold(workers: seq<WorkerPc>, id: Id)
    ensures id in Collect(workers, WorkerId) <==> exists w :: 0 <= w < |workers| && WorkerHolds(workers[w], id)
  {
    CollectIn(workers, WorkerId, id);
    assert forall w: WorkerPc :: id in WorkerId(w) <==> WorkerHolds(w, id);
  }

  lemma FetchesHold(fetches: seq<Fetch>, id: Id)
    ensures id in Collect(fetches, FetchId) <==> exists k :: 0 <= k < |fetches| && FetchHolds(fetches[k], id)
  {
    CollectIn(fetches, FetchId, id);
    assert forall f: Fetch :: id in FetchId(f) <==> FetchHolds(f, id);
  }

  lemma HeldIffOwned(s: State, id: Id)
    ensures Held(s, id) <==> id in Owners(s.workers, s.fetches)
  {
    WorkersHold(s.workers, id);
    FetchesHold(s.fetches, id);
  }

  /** In every state the goroutines that will delete a key are one more than those whose key
      a cleanup has deleted, if the key is in the table, and just those if it is not. So a key
      in the table is held, and one that is held and not orphaned is in the table, once. */
  lemma EveryKeyIsHeld(maxActive: nat, s: State)
    requires Reachable(maxActive, s)
    ensures forall id :: Owners(s.workers, s.fetches)[id] == s.orphans[id] + if id in s.active then 1 else 0
    ensures forall id :: id in s.active ==> Held(s, id)
    ensures forall id :: Held(s, id) && s.orphans[id] == 0 ==> id in s.active
  {
    ReachableOwned(maxActive, s);
    var keys := s.active.Keys;
    forall id: Id
      ensures Owners(s.workers, s.fetches)[id] == s.orphans[id] + if id in s.active then 1 else 0
      ensures id in s.active ==> Held(s, id)
      ensures Held(s, id) && s.orphans[id] == 0 ==> id in s.active
    {
      HeldIffOwned(s, id);
      assert multiset(keys)[id] == if id in keys then 1 else 0;
    }
  }

  /** A key becomes an orphan by a cleanup that deletes it while it is in the table, and by
      nothing else. */
  lemma OrphanedIff(s: State, a: Action, id: Id)
    requires Enabled(s, a)
    ensures Step(s, a).orphans[id] > s.orphans[id]
       <==> a.World? && (a.event.CleanDelete? || a.event.ForceDelete?) && a.event.id == id && id in s.active
  {
    match a
    case World(e) => WorldOrphans(s, e, id);
    case Worker(w, work) => assert DoWork(s, w, work).orphans == s.orphans;
    case Fetching(k, step) => assert DoFetch(s, k, step).orphans <= s.orphans;
  }

  lemma WorldOrphans(s: State, e: Event, id: Id)
    requires Happens(s, e)
    ensures Occur(s, e).orphans[id] > s.orphans[id]
       <==> (e.CleanDelete? || e.ForceDelete?) && e.id == id && id in s.active
  {
    if e.CleanDelete? || e.ForceDelete? {
      assert Occur(s, e).orphans == s.orphans + Orphaned(s, e.id);
    } else {
      assert Occur(s, e).orphans == s.orphans;
    }
  }

  /** A request is skipped exactly if more operations hold its URL with the same stamp than a
      cleanup has made orphans; so only if there is one, and exactly then without orphans. */
  lemma SkippedIffHeld(maxActive: nat, s: State, w: nat)
    requires Reachable(maxActive, s) && w < |s.workers| && s.workers[w].Stamped?
    ensures var id, skipped := s.workers[w].id, NextWorker(s, w, Store).Leaving?;
            && (skipped <==> Owners(s.workers, s.fetches)[id] > s.orphans[id])
            && (skipped ==> Held(s, id)) && (s.orphans[id] == 0 ==> (skipped <==> Held(s, id)))
  {
    EveryKeyIsHeld(maxActive, s);
  }

  /** With the wait group at zero, only a worker between storing its key and adding to the
      group can have a key in the table. */
  lemma WaitedForMeansGone(maxActive: nat, s: State)
    requires Reachable(maxActive, s) && s.wg == 0
    ensures forall id :: id in s.active ==>
              exists w :: 0 <= w < |s.workers| && s.workers[w].Stored? && WorkerHolds(s.workers[w], id)
    ensures s.inProgress == 0 ==> s.active == map[]
  {
    Bookkeeping(maxActive, s);
    EveryKeyIsHeld(maxActive, s);
    forall id | id in s.active
      ensures exists w :: 0 <= w < |s.workers| && s.workers[w].Stored? && WorkerHolds(s.workers[w], id)
    {
      OnlyStored(s, id);
    }
    if s.inProgress == 0 {
      NobodyInside(s);
      assert s.active.Keys == {};
    }
  }

  lemma OnlyStored(s: State, id: Id)
    requires Held(s, id) && forall w :: 0 <= w < |s.workers| ==> !s.workers[w].Added?
    requires forall k :: 0 <= k < |s.fetches| ==> s.fetches[k].pc.Finished?
    ensures exists w :: 0 <= w < |s.workers| && s.workers[w].Stored? && WorkerHolds(s.workers[w], id)
  {
  }

  lemma NobodyInside(s: State)
    requires Sum(s.workers, Inside) == 0
    ensures forall w :: 0 <= w < |s.workers| ==> !s.workers[w].Stored?
  {
    SumZero(s.workers, Inside);
    forall w | 0 <= w < |s.workers| ensures !s.workers[w].Stored? {
      assert Inside(s.workers[w]) == 0;
    }
  }

  /** Every accepted request is in exactly one place, and the failure counter of a URL is
      the number of failures recorded since its last success. */
  lemma NothingLostOrRepeated(maxActive: nat, s: State, url: string)
    requires Reachable(maxActive, s)
    ensures s.enqueued[url] ==
              Collect(s.queue, QueuedUrl)[url] + Collect(s.workers, HandledUrl)[url]
              + Collect(s.fetches, FetchedUrl)[url] + s.skipped[url]
    ensures Failures(s.failureCount, url) == Trailing(s.log, url)
  {
    ReachableAccounted(maxActive, s);
  }

  // ---------------------------------------------------------------- draining

  const REQUEST_WORK: nat := 12

  function WorkerWork(w: WorkerPc): nat
  {
    match w
    case Polling => 1
    case Called(_) => 12
    case Counted(_) => 11
    case Stamped(_, _) => 10
    case Stored(_, _) => 9
    case Added(_, _) => 8
    case Leaving => 2
    case Stopped => 0
  }

  function FetchWork(f: Fetch): nat
  {
    (match f.pc
     case Waiting => 3
     case Deleting => 2
     case Finishing => 1
     case Finished => 0) + if f.inner.Running? then 1 else 0
  }

  function Measure(s: State): nat
  {
    REQUEST_WORK * |s.queue| + Sum(s.workers, WorkerWork) + Sum(s.fetches, FetchWork)
  }

  lemma WorkerTakesWork(s: State, w: nat, work: Work, t: State)
    requires Works(s, w, work) && t == DoWork(s, w, work)
    ensures Measure(t) < Measure(s)
  {
    SumUpdate(s.workers, w, NextWorker(s, w, work), WorkerWork);
    if work.Spawn? {
      SumAppend(s.fetches, Fetch(s.workers[w].req.url, s.workers[w].id, Waiting, Running), FetchWork);
    } else {
      assert t.fetches == s.fetches;
    }
    assert |t.queue| == |s.queue| - if work.Poll? then 1 else 0;
  }

  lemma FetchTakesWork(s: State, k: nat, step: FetchStep, t: State)
    requires k < |s.fetches| && Fetches(s.fetches[k], step) && t == DoFetch(s, k, step)
    ensures Measure(t) < Measure(s)
  {
    SumUpdate(s.fetches, k, NextFetch(s.fetches[k], step), FetchWork);
    assert t.queue == s.queue && t.workers == s.workers;
  }

  lemma StepTakesWork(s: State, a: Action)
    requires Enabled(s, a) && !a.World?
    ensures Measure(Step(s, a)) < Measure(s)
  {
    match a
    case Worker(w, work) => WorkerTakesWork(s, w, work, Step(s, a));
    case Fetching(k, step) => FetchTakesWork(s, k, step, Step(s, a));
  }

  ghost predicate Undisturbed(run: seq<Action>)
  {
    forall i :: 0 <= i < |run| ==> !run[i].World?
  }

  /** Left alone, the workers and fetches take at most Measure(s) steps in any order. */
  lemma {:induction false} RunsAreBounded(s: State, run: seq<Action>, t: State)
    requires Execution(s, run, t) && Undisturbed(run)
    ensures |run| + Measure(t) <= Measure(s)
    decreases |run|
  {
    if run != [] {
      StepTakesWork(s, run[0]);
      RunsAreBounded(Step(s, run[0]), run[1..], t);
    }
  }

  ghost predicate Quiet(s: State)
  {
    forall a: Action :: Enabled(s, a) ==> a.World?
  }

  lemma QuietWorker(s: State, w: nat)
    requires Quiet(s) && w < |s.workers|
    ensures s.workers[w].Stopped? || (s.workers[w].Polling? && s.queue == [] && !s.stopClosed)
  {
    assert !Enabled(s, Worker(w, Poll)) && !Enabled(s, Worker(w, SeeStop)) && !Enabled(s, Worker(w, CountUp));
    assert !Enabled(s, Worker(w, Stamp)) && !Enabled(s, Worker(w, Store)) && !Enabled(s, Worker(w, AddWait));
    assert !Enabled(s, Worker(w, Spawn)) && !Enabled(s, Worker(w, Leave));
  }

  lemma QuietFetch(s: State, k: nat)
    requires Quiet(s) && k < |s.fetches|
    ensures s.fetches[k].pc.Finished? && s.fetches[k].inner.Arrived?
  {
    assert !Enabled(s, Fetching(k, Answer(true))) && !Enabled(s, Fetching(k, TimeOut));
    assert !Enabled(s, Fetching(k, DeleteKey)) && !Enabled(s, Fetching(k, DoneWait));
  }

  lemma QuietCounters(maxActive: nat, s: State)
    requires Reachable(maxActive, s) && Quiet(s)
    ensures s.inProgress == 0 && s.wg == 0
  {
    ReachableCounts(maxActive, s);
    forall w | 0 <= w < |s.workers| ensures s.workers[w].Stopped? || s.workers[w].Polling? {
      QuietWorker(s, w);
    }
    forall k | 0 <= k < |s.fetches| ensures s.fetches[k].pc.Finished? {
      QuietFetch(s, k);
    }
    SumZero(s.workers, Inside);
    SumZero(s.workers, Owed);
    SumZero(s.fetches, Open);
  }

  /** When nothing can move any more, both counters are at zero and the table is empty;
      requests can stay queued only if every worker has stopped, and all others were
      fetched or skipped. */
  lemma QuietMeansDrained(maxActive: nat, s: State)
    requires Reachable(maxActive, s) && Quiet(s)
    ensures s.inProgress == 0 && s.wg == 0 && s.active == map[]
    ensures s.queue == [] || forall w :: 0 <= w < |s.workers| ==> s.workers[w].Stopped?
    ensures s.enqueued == Collect(s.queue, QueuedUrl) + Collect(s.fetches, FetchedUrl) + s.skipped
  {
    QuietCounters(maxActive, s);
    WaitedForMeansGone(maxActive, s);
    ReachableAccounted(maxActive, s);
    forall w | 0 <= w < |s.workers|
      ensures s.workers[w].Stopped? || (s.workers[w].Polling? && s.queue == []) {
      QuietWorker(s, w);
    }
    CollectEmpty(s.workers, HandledUrl);
    assert Collect(s.queue, QueuedUrl) + multiset{} == Collect(s.queue, QueuedUrl);
  }

  lemma {:induction false} Continue(s: State, run: seq<Action>, t: State, more: seq<Action>, u: State)
    requires Execution(s, run, t) && Execution(t, more, u)
    ensures Execution(s, run + more, u)
    decreases |run|
  {
    if run == [] {
      assert run + more == more;
    } else {
      assert (run + more)[1..] == run[1..] + more;
      Continue(Step(s, run[0]), run[1..], t, more, u);
    }
  }

  lemma {:induction false} Settle(s: State) returns (run: seq<Action>, t: State)
    ensures Execution(s, run, t) && Undisturbed(run) && Quiet(t)
    decreases Measure(s)
  {
    if Quiet(s) {
      run, t := [], s;
    } else {
      var a: Action :| Enabled(s, a) && !a.World?;
      StepTakesWork(s, a);
      var rest;
      rest, t := Settle(Step(s, a));
      run := [a] + rest;
      assert run[1..] == rest;
    }
  }

  /** From every reachable state the prefetcher, left alone, comes to rest with nothing in
      flight, and it does so within Measure(s) steps whatever the schedule. */
  lemma Drains(maxActive: nat, s: State)
    requires Reachable(maxActive, s)
    ensures exists run, t: State :: Execution(s, run, t) && Undisturbed(run) && Quiet(t)
    ensures forall run, t: State :: Execution(s, run, t) && Undisturbed(run) && Quiet(t) ==>
              |run| <= Measure(s) && t.inProgress == 0 && t.wg == 0 && t.active == map[]
  {
    var _, _ := Settle(s);
    forall run, t: State | Execution(s, run, t) && Undisturbed(run) && Quiet(t)
      ensures |run| <= Measure(s) && t.inProgress == 0 && t.wg == 0 && t.active == map[] {
      RunsAreBounded(s, run, t);
      var before :| Execution(Init(maxActive), before, s);
      Continue(Init(maxActive), before, s, run, t);
      QuietMeansDrained(maxActive, t);
    }
  }

  // ---------------------------------------------------------------- no deduplication

  lemma Extend(maxActive: nat, s: State, a: Action)
    requires Reachable(maxActive, s) && Enabled(s, a)
    ensures Reachable(maxActive, Step(s, a))
  {
    var run :| Execution(Init(maxActive), run, s);
    var t := Step(s, a);
    assert Execution(t, [], t);
    assert [a][1..] == [];
    assert Execution(s, [a], t);
    Continue(Init(maxActive), run, s, [a], t);
  }

  /** One idle worker, n fetches of the URL still waiting, and every key stamped before now. */
  ghost predicate Piled(s: State, url: string, n: nat)
  {
    && s.workers == [Polling] && s.queue == [] && s.now == n
    && |s.fetches| == n && (forall k :: 0 <= k < n ==> s.fetches[k].url == url && s.fetches[k].pc.Waiting?)
    && (forall id :: id in s.active ==> id.nanos < n)
  }

  lemma EnqueueAndCount(maxActive: nat, s: State, req: Request, n: nat) returns (t: State)
    requires Reachable(maxActive, s) && Piled(s, req.url, n)
    ensures Reachable(maxActive, t) && t.workers == [Counted(req)] && t.queue == []
    ensures t.now == s.now && t.fetches == s.fetches && t.active == s.active
  {
    Extend(maxActive, s, World(Enqueue(req)));
    var s1 := Step(s, World(Enqueue(req)));
    assert s1.queue == [req] && s1.workers == [Polling];
    Extend(maxActive, s1, Worker(0, Poll));
    var s2 := Step(s1, Worker(0, Poll));
    assert s2.workers == [Called(req)] && s2.queue == [];
    Extend(maxActive, s2, Worker(0, CountUp));
    t := Step(s2, Worker(0, CountUp));
  }

  lemma EnqueueAndStore(maxActive: nat, s: State, req: Request, n: nat) returns (t: State)
    requires Reachable(maxActive, s) && Piled(s, req.url, n)
    ensures Reachable(maxActive, t) && t.workers == [Stored(req, Id(req.url, n))] && t.queue == [] && t.now == n
    ensures t.fetches == s.fetches && t.active.Keys == s.active.Keys + {Id(req.url, n)}
  {
    var s3 := EnqueueAndCount(maxActive, s, req, n);
    Extend(maxActive, s3, Worker(0, Stamp));
    var s4 := Step(s3, Worker(0, Stamp));
    assert s4.workers == [Stamped(req, Id(req.url, n))];
    assert !Taken(s4, 0);
    Extend(maxActive, s4, Worker(0, Store));
    t := Step(s4, Worker(0, Store));
  }

  lemma PileOneMore(maxActive: nat, s: State, req: Request, n: nat) returns (t: State)
    requires Reachable(maxActive, s) && Piled(s, req.url, n)
    ensures Reachable(maxActive, t) && Piled(t, req.url, n + 1)
  {
    var id := Id(req.url, n);
    var s1 := EnqueueAndStore(maxActive, s, req, n);
    Extend(maxActive, s1, Worker(0, AddWait));
    var s2 := Step(s1, Worker(0, AddWait));
    assert s2.workers == [Added(req, id)];
    Extend(maxActive, s2, Worker(0, Spawn));
    var s3 := Step(s2, Worker(0, Spawn));
    assert s3.workers == [Leaving] && s3.fetches == s.fetches + [Fetch(req.url, id, Waiting, Running)];
    Extend(maxActive, s3, Worker(0, Leave));
    var s4 := Step(s3, Worker(0, Leave));
    assert s4.workers == [Polling];
    Extend(maxActive, s4, World(ClockTo(n + 1)));
    t := Step(s4, World(ClockTo(n + 1)));
  }

  /** Neither the table nor the counter limits concurrent fetches: with a single worker any
      number of fetches of one and the same URL can be under way at once. */
  lemma {:induction false} FetchesPileUp(url: string, n: nat)
    ensures exists s: State :: Reachable(1, s) && Piled(s, url, n)
  {
    if n == 0 {
      var s := Init(1);
      assert Execution(s, [], s);
      assert Reachable(1, s) && Piled(s, url, 0);
    } else {
      FetchesPileUp(url, n - 1);
      var s: State :| Reachable(1, s) && Piled(s, url, n - 1);
      var t := PileOneMore(1, s, Request("", url), n - 1);
    }
  }
}
