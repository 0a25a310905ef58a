/**
 The prefetcher of internal/backend/prefetcher.go as a step system: queue workers, the
 goroutines they start, the table of active operations, the counters and both cleanups,
 interleaved one shared operation at a time.
 */
module Prefetcher {
  import opened Sums

  const QUEUE_CAPACITY: nat := 1000
  const STALE_AFTER: int := 15_000_000_000  // nanoseconds

  datatype Request = Request(repo: string, url: string)

  /** A key of `active`: the URL with the clock reading put behind it. */
  datatype Id = Id(url: string, nanos: int)

  /** Where a queue worker stands; Counted to Leaving are inside processSingleURL with the
      counter raised. */
  datatype WorkerPc =
    | Polling
    | Called(req: Request)
    | Counted(req: Request)
    | Stamped(req: Request, id: Id)
    | Stored(req: Request, id: Id)
    | Added(req: Request, id: Id)
    | Leaving
    | Stopped

  datatype FetchPc = Waiting | Deleting | Finishing | Finished

  /** The inner goroutine runs on whatever becomes of the outer one. */
  datatype Inner = Running | Arrived(ok: bool)

  datatype Fetch = Fetch(url: string, id: Id, pc: FetchPc, inner: Inner)

  /** A run of cleanupStalePrefetches: collecting stale keys, then deleting them. */
  datatype Cleaner = Collecting(started: int, found: set<Id>) | Sweeping(found: set<Id>)

  datatype Outcome = Outcome(url: string, ok: bool)

  /** `enqueued`, `skipped`, `log` and `orphans` record the run: URLs accepted and skipped,
      results recorded, and the keys a cleanup deleted before their operation came to it. */
  datatype State = State(
    now: int,
    queue: seq<Request>,
    active: map<Id, int>,
    inProgress: int,
    wg: int,
    stopClosed: bool,
    workers: seq<WorkerPc>,
    fetches: seq<Fetch>,
    cleaners: seq<Cleaner>,
    failureCount: map<string, nat>,
    enqueued: multiset<string>,
    skipped: multiset<string>,
    log: seq<Outcome>,
    orphans: multiset<Id>)

  function Init(maxActive: nat): State
  {
    State(0, [], map[], 0, 0, false, seq(maxActive, _ => Polling), [], [], map[],
          multiset{}, multiset{}, [], multiset{})
  }

  /** What the world does: time passes, requests come in, cleanups and the shutdown run. */
  datatype Event =
    | ClockTo(time: int)
    | Enqueue(req: Request)
    | Shutdown
    | StartCleanup
    | Note(c: nat, id: Id)
    | Sweep(c: nat)
    | CleanDelete(c: nat, id: Id)
    | ForceDelete(id: Id)

  /** The operations of a queue worker, in order. */
  datatype Work = Poll | SeeStop | CountUp | Stamp | Store | AddWait | Spawn | Leave

  /** The operations of a fetch: the inner goroutine's answer, and the outer one's steps. */
  datatype FetchStep = Answer(ok: bool) | TakeAnswer | TimeOut | DeleteKey | DoneWait

  datatype Action = World(event: Event) | Worker(w: nat, work: Work) | Fetching(k: nat, step: FetchStep)

  predicate Happens(s: State, e: Event)
  {
    match e
    case Enqueue(_) => |s.queue| < QUEUE_CAPACITY
    case Shutdown => !s.stopClosed
    case Note(c, id) =>
      c < |s.cleaners| && s.cleaners[c].Collecting? && id in s.active
      && s.cleaners[c].started - s.active[id] > STALE_AFTER
    case Sweep(c) => c < |s.cleaners| && s.cleaners[c].Collecting?
    case CleanDelete(c, id) => c < |s.cleaners| && s.cleaners[c].Sweeping? && id in s.cleaners[c].found
    case ForceDelete(id) => id in s.active
    case _ => true
  }

  predicate Works(s: State, w: nat, work: Work)
  {
    w < |s.workers|
    && match work
       case Poll => s.workers[w].Polling? && s.queue != []
       case SeeStop => s.workers[w].Polling? && s.stopClosed
       case CountUp => s.workers[w].Called?
       case Stamp => s.workers[w].Counted?
       case Store => s.workers[w].Stamped?
       case AddWait => s.workers[w].Stored?
       case Spawn => s.workers[w].Added?
       case Leave => s.workers[w].Leaving?
  }

  predicate Fetches(f: Fetch, step: FetchStep)
  {
    match step
    case Answer(_) => f.inner.Running?
    case TakeAnswer => f.pc.Waiting? && f.inner.Arrived?
    case TimeOut => f.pc.Waiting?
    case DeleteKey => f.pc.Deleting?
    case DoneWait => f.pc.Finishing?
  }

  predicate Enabled(s: State, a: Action)
  {
    match a
    case World(e) => Happens(s, e)
    case Worker(w, work) => Works(s, w, work)
    case Fetching(k, step) => k < |s.fetches| && Fetches(s.fetches[k], step)
  }

  function Failures(m: map<string, nat>, url: string): nat
  {
    if url in m then m[url] else 0
  }

  /** recordFailure and resetFailureCount. */
  function Record(m: map<string, nat>, url: string, ok: bool): map<string, nat>
  {
    if ok then m - {url} else m[url := Failures(m, url) + 1]
  }

  /** Whether the worker's key is already in the table. */
  predicate Taken(s: State, w: nat)
    requires w < |s.workers| && s.workers[w].Stamped?
  {
    s.workers[w].id in s.active
  }

  /** What a cleanup's deletion of a key adds to the orphans: nothing if the key is gone. */
  function Orphaned(s: State, id: Id): multiset<Id>
  {
    if id in s.active then multiset{id} else multiset{}
  }

  function NextWorker(s: State, w: nat, work: Work): WorkerPc
    requires Works(s, w, work)
  {
    match work
    case Poll => Called(s.queue[0])
    case SeeStop => Stopped
    case CountUp => Counted(s.workers[w].req)
    case Stamp => Stamped(s.workers[w].req, Id(s.workers[w].req.url, s.now))
    case Store => if Taken(s, w) then Leaving else Stored(s.workers[w].req, s.workers[w].id)
    case AddWait => Added(s.workers[w].req, s.workers[w].id)
    case Spawn => Leaving
    case Leave => Polling
  }

  function NextFetch(f: Fetch, step: FetchStep): Fetch
    requires Fetches(f, step)
  {
    match step
    case Answer(ok) => f.(inner := Arrived(ok))
    case TakeAnswer => f.(pc := Deleting)
    case TimeOut => f.(pc := Deleting)
    case DeleteKey => f.(pc := Finishing)
    case DoneWait => f.(pc := Finished)
  }

  function Occur(s: State, e: Event): State
    requires Happens(s, e)
  {
    match e
    case ClockTo(time) => s.(now := time)
    case Enqueue(req) => s.(queue := s.queue + [req], enqueued := s.enqueued + multiset{req.url})
    case Shutdown => s.(stopClosed := true)
    case StartCleanup => s.(cleaners := s.cleaners + [Collecting(s.now, {})])
    case Note(c, id) =>
      s.(cleaners := s.cleaners[c := s.cleaners[c].(found := s.cleaners[c].found + {id})])
    case Sweep(c) => s.(cleaners := s.cleaners[c := Sweeping(s.cleaners[c].found)])
    case CleanDelete(c, id) =>
      s.(cleaners := s.cleaners[c := Sweeping(s.cleaners[c].found - {id})],
         active := s.active - {id}, orphans := s.orphans + Orphaned(s, id))
    case ForceDelete(id) => s.(active := s.active - {id}, orphans := s.orphans + Orphaned(s, id))
  }

  function DoWork(s: State, w: nat, work: Work): State
    requires Works(s, w, work)
  {
    var t := s.(workers := s.workers[w := NextWorker(s, w, work)]);
    match work
    case Poll => t.(queue := s.queue[1..])
    case SeeStop => t
    case Stamp => t
    case CountUp => t.(inProgress := s.inProgress + 1)
    case Store =>
      if Taken(s, w) then t.(skipped := s.skipped + multiset{s.workers[w].req.url})
      else t.(active := s.active[s.workers[w].id := s.now])
    case AddWait => t.(wg := s.wg + 1)
    case Spawn => t.(fetches := s.fetches + [Fetch(s.workers[w].req.url, s.workers[w].id, Waiting, Running)])
    case Leave => t.(inProgress := s.inProgress - 1)
  }

  function DoFetch(s: State, k: nat, step: FetchStep): State
    requires k < |s.fetches| && Fetches(s.fetches[k], step)
  {
    var f := s.fetches[k];
    var t := s.(fetches := s.fetches[k := NextFetch(f, step)]);
    match step
    case TakeAnswer =>
      t.(failureCount := Record(s.failureCount, f.url, f.inner.ok), log := s.log + [Outcome(f.url, f.inner.ok)])
    case DeleteKey =>
      t.(active := s.active - {f.id}, orphans := if f.id in s.active then s.orphans else s.orphans - multiset{f.id})
    case DoneWait => t.(wg := s.wg - 1)
    case _ => t
  }

  function Step(s: State, a: Action): State
    requires Enabled(s, a)
  {
    match a
    case World(e) => Occur(s, e)
    case Worker(w, work) => DoWork(s, w, work)
    case Fetching(k, step) => DoFetch(s, k, step)
  }

  ghost predicate Execution(s: State, run: seq<Action>, t: State)
    decreases |run|
  {
    if run == [] then s == t
    else Enabled(s, run[0]) && Execution(Step(s, run[0]), run[1..], t)
  }

  ghost predicate Reachable(maxActive: nat, s: State)
  {
    exists run :: Execution(Init(maxActive), run, s)
  }

  // ---------------------------------------------------------------- what every step keeps

  function Inside(w: WorkerPc): nat { if w.Counted? || w.Stamped? || w.Stored? || w.Added? || w.Leaving? then 1 else 0 }

  function Owed(w: WorkerPc): nat { if w.Added? then 1 else 0 }

  function Open(f: Fetch): nat { if f.pc.Finished? then 0 else 1 }

  function WorkerId(w: WorkerPc): multiset<Id> { if w.Stored? || w.Added? then multiset{w.id} else multiset{} }

  function FetchId(f: Fetch): multiset<Id> { if f.pc.Waiting? || f.pc.Deleting? then multiset{f.id} else multiset{} }

  /** The ids of operations that will still delete their key, by the goroutine that will. */
  function Owners(workers: seq<WorkerPc>, fetches: seq<Fetch>): multiset<Id>
  {
    Collect(workers, WorkerId) + Collect(fetches, FetchId)
  }

  function HandledUrl(w: WorkerPc): multiset<string>
  {
    if w.Called? || w.Counted? || w.Stamped? || w.Stored? || w.Added? then multiset{w.req.url} else multiset{}
  }

  function QueuedUrl(r: Request): multiset<string> { multiset{r.url} }

  function FetchedUrl(f: Fetch): multiset<string> { multiset{f.url} }

  /** The counter counts workers inside processSingleURL. */
  ghost predicate Counts(s: State)
  {
    s.inProgress == Sum(s.workers, Inside)
  }

  /** The wait group counts outer fetch goroutines not done, or about to start. */
  ghost predicate Waits(s: State)
  {
    s.wg == Sum(s.workers, Owed) + Sum(s.fetches, Open)
  }

  /** Keys and owners agree one to one, but for the owners whose key a cleanup deleted. */
  ghost predicate Owned(s: State)
  {
    KeysOwned(s.active.Keys, Owners(s.workers, s.fetches), s.orphans)
  }

  ghost predicate KeysOwned(keys: set<Id>, owners: multiset<Id>, orphans: multiset<Id>)
  {
    owners == multiset(keys) + orphans
  }

  /** Where the URLs of accepted requests are. */
  function Places(queue: seq<Request>, workers: seq<WorkerPc>, fetches: seq<Fetch>,
            skipped: multiset<string>): multiset<string>
  {
    Collect(queue, QueuedUrl) + Collect(workers, HandledUrl) + Collect(fetches, FetchedUrl) + skipped
  }

  /** Every accepted request is queued, in a worker's hands, fetched or skipped: one of them, once. */
  ghost predicate Accounted(s: State)
  {
    s.enqueued == Places(s.queue, s.workers, s.fetches, s.skipped)
  }

  /** How many failures of the URL the log ends with, since its last success. */
  function Trailing(log: seq<Outcome>, url: string): nat
    decreases |log|
  {
    if log == [] then 0
    else
      var last, rest := log[|log| - 1], log[..|log| - 1];
      if last.url != url then Trailing(rest, url) else if last.ok then 0 else Trailing(rest, url) + 1
  }

  ghost predicate FailuresRight(s: State)
  {
    forall url :: Failures(s.failureCount, url) == Trailing(s.log, url)
  }

  // The counters.

  lemma CountsStep(s: State, a: Action)
    requires Counts(s) && Enabled(s, a)
    ensures Counts(Step(s, a))
  {
    if a.Worker? {
      SumUpdate(s.workers, a.w, NextWorker(s, a.w, a.work), Inside);
    }
  }

  lemma WorkerWaits(s: State, w: nat, work: Work, t: State)
    requires Waits(s) && Works(s, w, work) && t == DoWork(s, w, work)
    ensures Waits(t)
  {
    var x := NextWorker(s, w, work);
    SumUpdate(s.workers, w, x, Owed);
    assert t.wg == s.wg + if work.AddWait? then 1 else 0;
    if work.Spawn? {
      var f := Fetch(s.workers[w].req.url, s.workers[w].id, Waiting, Running);
      SumAppend(s.fetches, f, Open);
      assert t.fetches == s.fetches + [f];
    } else {
      assert t.fetches == s.fetches;
    }
  }

  lemma FetchWaits(s: State, k: nat, step: FetchStep, t: State)
    requires Waits(s) && k < |s.fetches| && Fetches(s.fetches[k], step) && t == DoFetch(s, k, step)
    ensures Waits(t)
  {
    SumUpdate(s.fetches, k, NextFetch(s.fetches[k], step), Open);
    assert t.wg == s.wg - if step.DoneWait? then 1 else 0;
  }

  lemma WaitsStep(s: State, a: Action)
    requires Waits(s) && Enabled(s, a)
    ensures Waits(Step(s, a))
  {
    match a
    case World(_) =>
    case Worker(w, work) => WorkerWaits(s, w, work, Step(s, a));
    case Fetching(k, step) => FetchWaits(s, k, step, Step(s, a));
  }

  lemma FailuresStep(s: State, a: Action)
    requires FailuresRight(s) && Enabled(s, a)
    ensures FailuresRight(Step(s, a))
  {
    if a.Fetching? && a.step.TakeAnswer? {
      assert Step(s, a).log[..|s.log|] == s.log;
    }
  }

  // The owners change by one id at most.

  lemma OwnersKept(workers: seq<WorkerPc>, fetches: seq<Fetch>, w: nat, x: WorkerPc)
    requires w < |workers| && WorkerId(x) == WorkerId(workers[w])
    ensures Owners(workers[w := x], fetches) == Owners(workers, fetches)
  {
    CollectSame(workers, w, x, WorkerId);
  }

  lemma OwnersKeptByFetch(workers: seq<WorkerPc>, fetches: seq<Fetch>, k: nat, g: Fetch)
    requires k < |fetches| && FetchId(g) == FetchId(fetches[k])
    ensures Owners(workers, fetches[k := g]) == Owners(workers, fetches)
  {
    CollectSame(fetches, k, g, FetchId);
  }

  lemma OwnerAdded(workers: seq<WorkerPc>, fetches: seq<Fetch>, w: nat, x: WorkerPc)
    requires w < |workers| && WorkerId(workers[w]) == multiset{}
    ensures Owners(workers[w := x], fetches) == Owners(workers, fetches) + WorkerId(x)
  {
    CollectGain(workers, w, x, WorkerId);
    AddAcross(Collect(workers, WorkerId), Collect(fetches, FetchId), WorkerId(x));
  }

  lemma OwnerHandedOver(workers: seq<WorkerPc>, fetches: seq<Fetch>, w: nat, x: WorkerPc, f: Fetch)
    requires w < |workers| && WorkerId(x) == multiset{} && FetchId(f) == WorkerId(workers[w])
    ensures Owners(workers[w := x], fetches + [f]) == Owners(workers, fetches)
  {
    CollectLoss(workers, w, x, WorkerId);
    CollectAppend(fetches, f, FetchId);
    AddAcross(Collect(workers[w := x], WorkerId), Collect(fetches, FetchId), FetchId(f));
  }

  lemma OwnerGone(workers: seq<WorkerPc>, fetches: seq<Fetch>, k: nat, g: Fetch)
    requires k < |fetches| && FetchId(g) == multiset{}
    ensures Owners(workers, fetches[k := g]) + FetchId(fetches[k]) == Owners(workers, fetches)
  {
    CollectLoss(fetches, k, g, FetchId);
    AddAcross(Collect(workers, WorkerId), Collect(fetches[k := g], FetchId), FetchId(fetches[k]));
  }

  lemma KeyStored(keys: set<Id>, owners: multiset<Id>, orphans: multiset<Id>, id: Id)
    requires KeysOwned(keys, owners, orphans) && id !in keys
    ensures KeysOwned(keys + {id}, owners + multiset{id}, orphans)
  {
    assert multiset(keys + {id}) == multiset(keys) + multiset{id};
  }

  lemma KeyDeleted(keys: set<Id>, owners: multiset<Id>, fewer: multiset<Id>, orphans: multiset<Id>, id: Id)
    requires KeysOwned(keys, owners, orphans) && fewer + multiset{id} == owners
    ensures KeysOwned(keys - {id}, fewer, if id in keys then orphans else orphans - multiset{id})
  {
    assert fewer == owners - multiset{id};
    if id in keys {
      assert multiset(keys) == multiset(keys - {id}) + multiset{id};
    } else {
      assert keys - {id} == keys;
    }
  }

  lemma KeyTakenAway(keys: set<Id>, owners: multiset<Id>, orphans: multiset<Id>, id: Id)
    requires KeysOwned(keys, owners, orphans)
    ensures KeysOwned(keys - {id}, owners, orphans + if id in keys then multiset{id} else multiset{})
  {
    if id in keys {
      assert multiset(keys) == multiset(keys - {id}) + multiset{id};
    } else {
      assert keys - {id} == keys;
    }
  }

  lemma AddAcross<T>(a: multiset<T>, b: multiset<T>, x: multiset<T>)
    ensures (a + x) + b == (a + b) + x && a + (b + x) == (a + b) + x
  {
  }

  lemma KeyAdded(active: map<Id, int>, id: Id, now: int)
    ensures active[id := now].Keys == active.Keys + {id}
  {
  }

  lemma StoreOwned(s: State, w: nat, t: State)
    requires Owned(s) && Works(s, w, Store) && !Taken(s, w) && t == DoWork(s, w, Store)
    ensures Owned(t)
  {
    var id := s.workers[w].id;
    OwnerAdded(s.workers, s.fetches, w, Stored(s.workers[w].req, id));
    KeyStored(s.active.Keys, Owners(s.workers, s.fetches), s.orphans, id);
    KeyAdded(s.active, id, s.now);
  }

  lemma SpawnOwned(s: State, w: nat, t: State)
    requires Owned(s) && Works(s, w, Spawn) && t == DoWork(s, w, Spawn)
    ensures Owned(t)
  {
    OwnerHandedOver(s.workers, s.fetches, w, Leaving, Fetch(s.workers[w].req.url, s.workers[w].id, Waiting, Running));
  }

  lemma OtherOwned(s: State, w: nat, work: Work, t: State)
    requires Owned(s) && Works(s, w, work) && t == DoWork(s, w, work)
    requires !work.Spawn? && (work.Store? ==> Taken(s, w))
    ensures Owned(t)
  {
    var x := NextWorker(s, w, work);
    assert WorkerId(x) == WorkerId(s.workers[w]);
    OwnersKept(s.workers, s.fetches, w, x);
    assert t.workers == s.workers[w := x] && t.fetches == s.fetches && t.active == s.active && t.orphans == s.orphans;
  }

  lemma WorkerOwned(s: State, w: nat, work: Work, t: State)
    requires Owned(s) && Works(s, w, work) && t == DoWork(s, w, work)
    ensures Owned(t)
  {
    if work.Store? && !Taken(s, w) {
      StoreOwned(s, w, t);
    } else if work.Spawn? {
      SpawnOwned(s, w, t);
    } else {
      OtherOwned(s, w, work, t);
    }
  }

  lemma FetchOwned(s: State, k: nat, step: FetchStep, t: State)
    requires Owned(s) && k < |s.fetches| && Fetches(s.fetches[k], step) && t == DoFetch(s, k, step)
    ensures Owned(t)
  {
    var f, g := s.fetches[k], NextFetch(s.fetches[k], step);
    assert t.workers == s.workers && t.fetches == s.fetches[k := g];
    if step.DeleteKey? {
      OwnerGone(s.workers, s.fetches, k, g);
      KeyDeleted(s.active.Keys, Owners(s.workers, s.fetches), Owners(s.workers, t.fetches), s.orphans, f.id);
      assert t.active.Keys == s.active.Keys - {f.id};
    } else {
      OwnersKeptByFetch(s.workers, s.fetches, k, g);
      assert t.active == s.active && t.orphans == s.orphans;
    }
  }

  lemma WorldOwned(s: State, e: Event, t: State)
    requires Owned(s) && Happens(s, e) && t == Occur(s, e)
    ensures Owned(t)
  {
    assert t.workers == s.workers && t.fetches == s.fetches;
    if e.CleanDelete? || e.ForceDelete? {
      KeyTakenAway(s.active.Keys, Owners(s.workers, s.fetches), s.orphans, e.id);
      assert t.active.Keys == s.active.Keys - {e.id};
    } else {
      assert t.active == s.active && t.orphans == s.orphans;
    }
  }

  lemma OwnedStep(s: State, a: Action)
    requires Owned(s) && Enabled(s, a)
    ensures Owned(Step(s, a))
  {
    match a
    case World(e) => WorldOwned(s, e, Step(s, a));
    case Worker(w, work) => WorkerOwned(s, w, work, Step(s, a));
    case Fetching(k, step) => FetchOwned(s, k, step, Step(s, a));
  }

  // The requests move from place to place.

  lemma Regroup<T>(q: multiset<T>, w: multiset<T>, f: multiset<T>, k: multiset<T>, x: multiset<T>)
    ensures (q + x) + w + f + k == q + (w + x) + f + k == q + w + (f + x) + k == q + w + f + (k + x)
        == (q + w + f + k) + x
  {
  }

  lemma PlacesKept(queue: seq<Request>, workers: seq<WorkerPc>, fetches: seq<Fetch>, skipped: multiset<string>,
                   w: nat, x: WorkerPc)
    requires w < |workers| && HandledUrl(x) == HandledUrl(workers[w])
    ensures Places(queue, workers[w := x], fetches, skipped) == Places(queue, workers, fetches, skipped)
  {
    CollectSame(workers, w, x, HandledUrl);
  }

  lemma TakenUp(queue: seq<Request>, workers: seq<WorkerPc>, fetches: seq<Fetch>, skipped: multiset<string>, w: nat)
    requires w < |workers| && HandledUrl(workers[w]) == multiset{} && queue != []
    ensures Places(queue[1..], workers[w := Called(queue[0])], fetches, skipped)
        == Places(queue, workers, fetches, skipped)
  {
    var first := queue[0];
    CollectGain(workers, w, Called(first), HandledUrl);
    var rest := Collect(queue[1..], QueuedUrl);
    assert multiset{first.url} + rest == rest + multiset{first.url};
    Regroup(rest, Collect(workers, HandledUrl), Collect(fetches, FetchedUrl), skipped, multiset{first.url});
  }

  lemma Skipping(queue: seq<Request>, workers: seq<WorkerPc>, fetches: seq<Fetch>, skipped: multiset<string>, w: nat)
    requires w < |workers|
    ensures Places(queue, workers[w := Leaving], fetches, skipped + HandledUrl(workers[w]))
         == Places(queue, workers, fetches, skipped)
  {
    CollectLoss(workers, w, Leaving, HandledUrl);
    Regroup(Collect(queue, QueuedUrl), Collect(workers[w := Leaving], HandledUrl),
            Collect(fetches, FetchedUrl), skipped, HandledUrl(workers[w]));
  }

  lemma HandedOver(queue: seq<Request>, workers: seq<WorkerPc>, fetches: seq<Fetch>, skipped: multiset<string>,
                   w: nat, f: Fetch)
    requires w < |workers| && FetchedUrl(f) == HandledUrl(workers[w])
    ensures Places(queue, workers[w := Leaving], fetches + [f], skipped) == Places(queue, workers, fetches, skipped)
  {
    CollectLoss(workers, w, Leaving, HandledUrl);
    CollectAppend(fetches, f, FetchedUrl);
    Regroup(Collect(queue, QueuedUrl), Collect(workers[w := Leaving], HandledUrl),
            Collect(fetches, FetchedUrl), skipped, FetchedUrl(f));
  }

  lemma SkipAccounted(s: State, w: nat, t: State)
    requires Accounted(s) && Works(s, w, Store) && Taken(s, w) && t == DoWork(s, w, Store)
    ensures Accounted(t)
  {
    Skipping(s.queue, s.workers, s.fetches, s.skipped, w);
  }

  lemma SpawnAccounted(s: State, w: nat, t: State)
    requires Accounted(s) && Works(s, w, Spawn) && t == DoWork(s, w, Spawn)
    ensures Accounted(t)
  {
    HandedOver(s.queue, s.workers, s.fetches, s.skipped, w,
               Fetch(s.workers[w].req.url, s.workers[w].id, Waiting, Running));
  }

  lemma OtherAccounted(s: State, w: nat, work: Work, t: State)
    requires Accounted(s) && Works(s, w, work) && t == DoWork(s, w, work)
    requires !work.Poll? && !work.Spawn? && (work.Store? ==> !Taken(s, w))
    ensures Accounted(t)
  {
    var x := NextWorker(s, w, work);
    PlacesKept(s.queue, s.workers, s.fetches, s.skipped, w, x);
    assert t.workers == s.workers[w := x] && t.fetches == s.fetches && t.queue == s.queue && t.skipped == s.skipped;
  }

  lemma WorkerAccounted(s: State, w: nat, work: Work, t: State)
    requires Accounted(s) && Works(s, w, work) && t == DoWork(s, w, work)
    ensures Accounted(t)
  {
    if work.Poll? {
      TakenUp(s.queue, s.workers, s.fetches, s.skipped, w);
    } else if work.Store? && Taken(s, w) {
      SkipAccounted(s, w, t);
    } else if work.Spawn? {
      SpawnAccounted(s, w, t);
    } else {
      OtherAccounted(s, w, work, t);
    }
  }

  lemma FetchAccounted(s: State, k: nat, step: FetchStep, t: State)
    requires Accounted(s) && k < |s.fetches| && Fetches(s.fetches[k], step) && t == DoFetch(s, k, step)
    ensures Accounted(t)
  {
    CollectSame(s.fetches, k, NextFetch(s.fetches[k], step), FetchedUrl);
    assert t.queue == s.queue && t.workers == s.workers && t.skipped == s.skipped && t.enqueued == s.enqueued;
  }

  lemma WorldAccounted(s: State, e: Event, t: State)
    requires Accounted(s) && Happens(s, e) && t == Occur(s, e)
    ensures Accounted(t)
  {
    assert t.workers == s.workers && t.fetches == s.fetches && t.skipped == s.skipped;
    if e.Enqueue? {
      CollectAppend(s.queue, e.req, QueuedUrl);
      Regroup(Collect(s.queue, QueuedUrl), Collect(s.workers, HandledUrl), Collect(s.fetches, FetchedUrl), s.skipped,
              multiset{e.req.url});
    }
  }

  lemma AccountedStep(s: State, a: Action)
    requires Accounted(s) && Enabled(s, a)
    ensures Accounted(Step(s, a))
  {
    match a
    case World(e) => WorldAccounted(s, e, Step(s, a));
    case Worker(w, work) => WorkerAccounted(s, w, work, Step(s, a));
    case Fetching(k, step) => FetchAccounted(s, k, step, Step(s, a));
  }

  // Over whole runs.

  ghost predicate Bounded(maxActive: nat, s: State)
  {
    |s.workers| == maxActive && |s.queue| <= QUEUE_CAPACITY
  }

  lemma {:induction false} RunCounts(maxActive: nat, s: State, run: seq<Action>, t: State)
    requires Bounded(maxActive, s) && Counts(s) && Waits(s) && Execution(s, run, t)
    ensures Bounded(maxActive, t) && Counts(t) && Waits(t)
    decreases |run|
  {
    if run != [] {
      CountsStep(s, run[0]);
      WaitsStep(s, run[0]);
      RunCounts(maxActive, Step(s, run[0]), run[1..], t);
    }
  }

  lemma {:induction false} RunOwned(s: State, run: seq<Action>, t: State)
    requires Owned(s) && Execution(s, run, t)
    ensures Owned(t)
    decreases |run|
  {
    if run != [] {
      OwnedStep(s, run[0]);
      RunOwned(Step(s, run[0]), run[1..], t);
    }
  }

  lemma {:induction false} RunAccounted(s: State, run: seq<Action>, t: State)
    requires Accounted(s) && FailuresRight(s) && Execution(s, run, t)
    ensures Accounted(t) && FailuresRight(t)
    decreases |run|
  {
    if run != [] {
      AccountedStep(s, run[0]);
      FailuresStep(s, run[0]);
      RunAccounted(Step(s, run[0]), run[1..], t);
    }
  }

  lemma InitKeeps(maxActive: nat)
    ensures var s := Init(maxActive);
            Bounded(maxActive, s) && Counts(s) && Waits(s) && Owned(s) && Accounted(s) && FailuresRight(s)
  {
    var s := Init(maxActive);
    SumZero(s.workers, Inside);
    SumZero(s.workers, Owed);
    CollectEmpty(s.workers, WorkerId);
    CollectEmpty(s.workers, HandledUrl);
  }
}
