/** What makes workers, fetches and cleanups of the prefetcher move, and in which order requests go. */
module PrefetcherSteps {
  import opened Prefetcher

  // ---------------------------------------------------------------- what can happen

  /** A new prefetcher has its workers polling and nothing else. */
  lemma StartsIdle(maxActive: nat)
    ensures var s := Init(maxActive);
            && |s.workers| == maxActive && (forall w :: 0 <= w < maxActive ==> s.workers[w] == Polling)
            && s.queue == [] && s.active == map[] && s.inProgress == 0 && s.wg == 0 && !s.stopClosed
            && s.fetches == [] && s.cleaners == [] && s.failureCount == map[]
  {
  }

  /** Requests come while the queue has room for them, the shutdown comes once, a cleanup can
      begin at any time, deletes what it has noted, and a forced one any key in the table. */
  lemma HappensIff(s: State, req: Request, time: int, c: nat, id: Id)
    ensures Happens(s, Enqueue(req)) <==> |s.queue| < 1000
    ensures Happens(s, Shutdown) <==> !s.stopClosed
    ensures Happens(s, ClockTo(time)) && Happens(s, StartCleanup)
    ensures Happens(s, ForceDelete(id)) <==> id in s.active
    ensures Happens(s, CleanDelete(c, id)) <==>
              c < |s.cleaners| && s.cleaners[c].Sweeping? && id in s.cleaners[c].found
    ensures Happens(s, Sweep(c)) <==> c < |s.cleaners| && s.cleaners[c].Collecting?
    ensures Happens(s, Note(c, id)) <==>
              && c < |s.cleaners| && s.cleaners[c].Collecting? && id in s.active
              && s.cleaners[c].started > s.active[id] + 15_000_000_000
  {
  }

  // ---------------------------------------------------------------- what a step leaves alone

  lemma WorldLeaves(s: State, e: Event, t: State)
    requires Happens(s, e) && t == Occur(s, e)
    ensures t.workers == s.workers && t.fetches == s.fetches && t.inProgress == s.inProgress && t.wg == s.wg
    ensures t.failureCount == s.failureCount && |t.cleaners| >= |s.cleaners|
  {
  }

  lemma WorkLeaves(s: State, w: nat, work: Work, t: State)
    requires Works(s, w, work) && t == DoWork(s, w, work)
    ensures t.workers == s.workers[w := NextWorker(s, w, work)] && t.cleaners == s.cleaners
    ensures t.failureCount == s.failureCount && s.fetches <= t.fetches && t.stopClosed == s.stopClosed
    ensures work.Store? || t.active == s.active
  {
  }

  lemma FetchLeaves(s: State, k: nat, step: FetchStep, t: State)
    requires k < |s.fetches| && Fetches(s.fetches[k], step) && t == DoFetch(s, k, step)
    ensures t.fetches == s.fetches[k := NextFetch(s.fetches[k], step)] && t.workers == s.workers
    ensures t.cleaners == s.cleaners && t.inProgress == s.inProgress && t.stopClosed == s.stopClosed
    ensures step.DeleteKey? || t.active == s.active
  {
  }

  lemma StepLeaves(s: State, a: Action, t: State)
    requires Enabled(s, a) && t == Step(s, a)
    ensures a.World? || t.cleaners == s.cleaners
    ensures a.Worker? || t.workers == s.workers
    ensures a.Worker? ==> t.workers == s.workers[a.w := NextWorker(s, a.w, a.work)]
    ensures !a.Fetching? ==> s.fetches <= t.fetches
    ensures a.Fetching? ==> t.fetches == s.fetches[a.k := NextFetch(s.fetches[a.k], a.step)]
  {
    match a
    case World(e) => WorldLeaves(s, e, t);
    case Worker(w, work) => WorkLeaves(s, w, work, t);
    case Fetching(k, step) => FetchLeaves(s, k, step, t);
  }

  // ---------------------------------------------------------------- the order of requests

  /** The requests that came in. */
  function Came(run: seq<Action>): seq<Request>
  {
    if run == [] then []
    else (if run[0].World? && run[0].event.Enqueue? then [run[0].event.req] else []) + Came(run[1..])
  }

  /** The requests that workers took up. */
  function TakenUp(s: State, run: seq<Action>, t: State): seq<Request>
    requires Execution(s, run, t)
    decreases |run|
  {
    if run == [] then []
    else
      var next := Step(s, run[0]);
      (if run[0].Worker? && run[0].work.Poll? && next.workers[run[0].w].Called? then [next.workers[run[0].w].req]
       else [])
      + TakenUp(next, run[1..], t)
  }

  lemma QueueStep(s: State, a: Action, t: State)
    requires Enabled(s, a) && t == Step(s, a)
    ensures a.World? && a.event.Enqueue? ==> |s.queue| < 1000 && t.queue == s.queue + [a.event.req]
    ensures a.Worker? && a.work.Poll? ==> t.workers[a.w].Called? && s.queue == [t.workers[a.w].req] + t.queue
    ensures !(a.World? && a.event.Enqueue?) && !(a.Worker? && a.work.Poll?) ==> t.queue == s.queue
  {
    match a
    case World(e) => assert t == Occur(s, e);
    case Worker(w, work) => assert t == DoWork(s, w, work);
    case Fetching(k, step) => assert t == DoFetch(s, k, step);
  }

  /** First in, first out: over any run the requests taken up and then those still queued are
      those queued at the start and then those that came in, in order. */
  lemma {:induction false} TakenUpInOrder(s: State, run: seq<Action>, t: State)
    requires Execution(s, run, t)
    ensures TakenUp(s, run, t) + t.queue == s.queue + Came(run)
    decreases |run|
  {
    if run == [] {
      assert [] + t.queue == t.queue && s.queue + [] == s.queue;
    } else {
      var next := Step(s, run[0]);
      QueueStep(s, run[0], next);
      TakenUpInOrder(next, run[1..], t);
      var first := if run[0].Worker? && run[0].work.Poll? then [next.workers[run[0].w].req] else [];
      var came := if run[0].World? && run[0].event.Enqueue? then [run[0].event.req] else [];
      assert first + next.queue == s.queue + came;
      Between(first, TakenUp(next, run[1..], t), t.queue, next.queue, s.queue, came, Came(run[1..]));
    }
  }

  lemma Between<T>(first: seq<T>, more: seq<T>, left: seq<T>, mid: seq<T>, start: seq<T>, came: seq<T>, later: seq<T>)
    requires more + left == mid + later && first + mid == start + came
    ensures (first + more) + left == start + (came + later)
  {
    assert (first + more) + left == first + (more + left) == (first + mid) + later == (start + came) + later;
  }

  // ---------------------------------------------------------------- workers

  /** How a worker goes through a request: counted, stamped with the clock, stored unless its
      key is taken, waited for, handed to a fetch; and it stops only on the stop signal. */
  lemma WorkerMovesIff(s: State, a: Action, w: nat)
    requires Enabled(s, a) && w < |s.workers|
    ensures var pc, next := s.workers[w], Step(s, a).workers[w];
            && (next != pc && next.Called? <==> a == Worker(w, Poll) && pc == Polling && s.queue != [])
            && (next != pc && next == Stopped <==> a == Worker(w, SeeStop) && pc == Polling && s.stopClosed)
            && (next != pc && next.Counted? <==> a == Worker(w, CountUp) && pc.Called?)
            && (next != pc && next.Stamped? <==> a == Worker(w, Stamp) && pc.Counted?)
            && (next != pc && next.Stored? <==> a == Worker(w, Store) && pc.Stamped? && pc.id !in s.active)
            && (next != pc && next.Added? <==> a == Worker(w, AddWait) && pc.Stored?)
            && (next != pc && next == Leaving <==>
                  (a == Worker(w, Spawn) && pc.Added?) || (a == Worker(w, Store) && pc.Stamped? && pc.id in s.active))
            && (next != pc && next == Polling <==> a == Worker(w, Leave) && pc == Leaving)
  {
    StepLeaves(s, a, Step(s, a));
  }

  /** It keeps its request, and its key is the URL with the time. */
  lemma WorkerKeepsRequest(s: State, a: Action, w: nat)
    requires Enabled(s, a) && w < |s.workers|
    ensures var pc, next := s.workers[w], Step(s, a).workers[w];
            && (pc.Called? && next != pc ==> next == Counted(pc.req))
            && (pc.Counted? && next != pc ==> next == Stamped(pc.req, Id(pc.req.url, s.now)))
            && (pc.Stamped? && next != pc && !next.Leaving? ==> next == Stored(pc.req, pc.id))
            && (pc.Stored? && next != pc ==> next == Added(pc.req, pc.id))
  {
    StepLeaves(s, a, Step(s, a));
  }

  /** The counters move with one operation each. */
  lemma CountersMove(s: State, a: Action)
    requires Enabled(s, a)
    ensures var t := Step(s, a);
            && t.inProgress == s.inProgress + (if a.Worker? && a.work == CountUp then 1
                                               else if a.Worker? && a.work == Leave then -1 else 0)
            && t.wg == s.wg + (if a.Worker? && a.work == AddWait then 1
                               else if a.Fetching? && a.step == DoneWait then -1 else 0)
            && (t.stopClosed <==> s.stopClosed || (a.World? && a.event == Shutdown))
  {
    match a
    case World(e) => WorldLeaves(s, e, Step(s, a));
    case Worker(w, work) => WorkLeaves(s, w, work, Step(s, a));
    case Fetching(k, step) => FetchLeaves(s, k, step, Step(s, a));
  }

  // ---------------------------------------------------------------- fetches

  /** A fetch is started by the worker that handed it its URL and key, with its inner part
      running. */
  lemma FetchBegins(s: State, a: Action)
    requires Enabled(s, a)
    ensures var f := Step(s, a).fetches;
            if a.Worker? && a.work == Spawn then
              && s.workers[a.w].Added?
              && f == s.fetches + [Fetch(s.workers[a.w].req.url, s.workers[a.w].id, Waiting, Running)]
            else |f| == |s.fetches|
  {
  }

  /** The outer part goes on when the answer is there or time is up, deletes the key, and is
      done; the inner part answers once, whatever became of the outer one. */
  lemma FetchMovesIff(s: State, a: Action, k: nat)
    requires Enabled(s, a) && k < |s.fetches|
    ensures var f, g := s.fetches[k], Step(s, a).fetches[k];
            && g.url == f.url && g.id == f.id
            && (g.pc != f.pc && g.pc == Deleting <==>
                  f.pc == Waiting && ((a == Fetching(k, TakeAnswer) && f.inner.Arrived?) || a == Fetching(k, TimeOut)))
            && (g.pc != f.pc && g.pc == Finishing <==> a == Fetching(k, DeleteKey) && f.pc == Deleting)
            && (g.pc != f.pc && g.pc == Finished <==> a == Fetching(k, DoneWait) && f.pc == Finishing)
            && (g.inner != f.inner <==> a.Fetching? && a.k == k && a.step.Answer? && f.inner == Running)
            && (g.inner != f.inner ==> g.inner == Arrived(a.step.ok))
  {
    StepLeaves(s, a, Step(s, a));
  }

  /** The failures of a URL: none after a success that was waited for, one more after such a
      failure, otherwise as before. */
  lemma FailuresMove(s: State, a: Action, url: string)
    requires Enabled(s, a)
    ensures var took := a.Fetching? && a.step == TakeAnswer && s.fetches[a.k].url == url;
            Failures(Step(s, a).failureCount, url)
              == if !took then Failures(s.failureCount, url)
                 else if s.fetches[a.k].inner == Arrived(true) then 0 else Failures(s.failureCount, url) + 1
  {
  }

  // ---------------------------------------------------------------- the table and the cleanups

  /** A key comes into the table by a Store, with the time, and goes by its fetch or a cleanup. */
  lemma ActiveAfter(s: State, a: Action, id: Id)
    requires Enabled(s, a)
    ensures var t := Step(s, a);
            && (id in t.active && id !in s.active <==>
                  a.Worker? && a.work == Store && s.workers[a.w].id == id && id !in s.active)
            && (id in t.active ==> t.active[id] == if id in s.active then s.active[id] else s.now)
            && (id in s.active && id !in t.active <==>
                  id in s.active
                  && ((a.Fetching? && a.step == DeleteKey && s.fetches[a.k].id == id)
                      || (a.World? && (a.event.CleanDelete? || a.event.ForceDelete?) && a.event.id == id)))
  {
    match a
    case World(e) =>
    case Worker(w, work) => WorkLeaves(s, w, work, Step(s, a));
    case Fetching(k, step) => FetchLeaves(s, k, step, Step(s, a));
  }

  /** A cleanup notes a key exactly when it has been in the table for more than 15 seconds
      before the cleanup began. */
  lemma NotedIff(s: State, a: Action, t: State, c: nat, id: Id)
    requires Enabled(s, a) && t == Step(s, a)
    requires c < |s.cleaners| <= |t.cleaners| && id !in s.cleaners[c].found
    ensures id in t.cleaners[c].found <==>
              && a == World(Note(c, id)) && s.cleaners[c].Collecting? && id in s.active
              && s.cleaners[c].started > s.active[id] + 15_000_000_000
  {
    if a.World? {
      NotedByEvent(s, a.event, t, c, id);
    } else {
      StepLeaves(s, a, t);
    }
  }

  lemma NotedByEvent(s: State, e: Event, t: State, c: nat, id: Id)
    requires Happens(s, e) && t == Occur(s, e)
    requires c < |s.cleaners| <= |t.cleaners| && id !in s.cleaners[c].found
    ensures id in t.cleaners[c].found <==> e == Note(c, id)
  {
  }

  /** It begins at the present time with nothing noted, and deletes what it has noted only. */
  lemma CleanupSteps(s: State, a: Action)
    requires Enabled(s, a) && a.World?
    ensures a.event == StartCleanup ==> Step(s, a).cleaners == s.cleaners + [Collecting(s.now, {})]
    ensures a.event.CleanDelete? ==> s.cleaners[a.event.c].Sweeping? && a.event.id in s.cleaners[a.event.c].found
    ensures a.event.CleanDelete? ==> a.event.id !in Step(s, a).cleaners[a.event.c].found
    ensures a.event.Sweep? ==> Step(s, a).cleaners[a.event.c] == Sweeping(s.cleaners[a.event.c].found)
  {
  }
}
