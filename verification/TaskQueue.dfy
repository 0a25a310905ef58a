/**
 The bounded task queue of internal/queue/queue.go as a step system: any number of
 concurrent Submit and Stop calls and started workers, one atomic operation a step.
 */
module TaskQueue {
  import opened Sums

  /** Buffer of the task channel. */
  const CAPACITY: nat := 100

  datatype Task = Task(data: int, priority: int)

  /** A worker leaves its loop on the stop signal or on the closed task channel. */
  datatype Worker = Idle | Handling(task: Task) | ExitedOnSignal | ExitedOnClosed
  {
    predicate Exited() { ExitedOnSignal? || ExitedOnClosed? }
  }

  /** `SentOnClosed` is the runtime panic of a send on a closed channel. */
  datatype Outcome = Accepted | RefusedAtStart | RefusedAtRecheck | QueueFull | SentOnClosed

  /** Where a Submit call stands; each state names the operation that comes next. */
  datatype SubmitPc = LoadingFlag | Sending | ReloadingFlag | Retrying | Finished(outcome: Outcome)

  datatype Submitter = Submitter(task: Task, pc: SubmitPc)

  /** Where a Stop call stands: at the once, running its body, waiting for it, or back. */
  datatype Stopper = Entering | Owner | Blocked | Returned

  datatype Phase = StoringFlag | ClosingSignal | WaitingForWorkers | ClosingTasks

  datatype Once = Fresh | InProgress(owner: nat, phase: Phase) | Done

  /** `accepted`, `received`, `handled` and `joined` record the run: the tasks put in the
      channel, taken out of it and handled, and how many workers were started when
      wg.Wait returned. */
  datatype State = State(
    isStopping: bool,
    signalCloses: nat,
    taskCloses: nat,
    taskCh: seq<Task>,
    wg: int,
    workers: seq<Worker>,
    submitters: seq<Submitter>,
    stoppers: seq<Stopper>,
    once: Once,
    accepted: seq<Task>,
    received: seq<Task>,
    handled: multiset<Task>,
    joined: nat)

  const Init := State(false, 0, 0, [], 0, [], [], [], Fresh, [], [], multiset{}, 0)

  datatype Action =
    // calls that arrive
    | StartWorker
    | CallSubmit(task: Task)
    | CallStop
    // a worker
    | Receive(w: nat)
    | ReceiveClosed(w: nat)
    | FinishTask(w: nat)
    | SeeSignal(w: nat)
    // a Submit call
    | LoadFlag(i: nat)
    | Send(i: nat)
    | TimeOut(i: nat)
    | ReloadFlag(i: nat)
    | Retry(i: nat)
    // a Stop call
    | EnterOnce(k: nat)
    | StopStep(k: nat)
    | Unblock(k: nat)
  {
    predicate Arrival() { StartWorker? || CallSubmit? || CallStop? }

    /** Whether this is a step of the i-th Submit call. */
    predicate Moves(c: nat) { (LoadFlag? || Send? || TimeOut? || ReloadFlag? || Retry?) && i == c }
  }

  predicate At(s: State, i: nat, pc: SubmitPc)
  {
    i < |s.submitters| && s.submitters[i].pc == pc
  }

  predicate Enabled(s: State, a: Action)
  {
    match a
    case StartWorker => true
    case CallSubmit(_) => true
    case CallStop => true
    case Receive(w) => w < |s.workers| && s.workers[w].Idle? && s.taskCh != []
    case ReceiveClosed(w) => w < |s.workers| && s.workers[w].Idle? && s.taskCh == [] && s.taskCloses > 0
    case FinishTask(w) => w < |s.workers| && s.workers[w].Handling?
    case SeeSignal(w) => w < |s.workers| && s.workers[w].Idle? && s.signalCloses > 0
    case LoadFlag(i) => At(s, i, LoadingFlag)
    case Send(i) => At(s, i, Sending) && (s.taskCloses > 0 || |s.taskCh| < CAPACITY)
    case TimeOut(i) => At(s, i, Sending)
    case ReloadFlag(i) => At(s, i, ReloadingFlag)
    case Retry(i) => At(s, i, Retrying)
    case EnterOnce(k) => k < |s.stoppers| && s.stoppers[k].Entering?
    case StopStep(k) => k < |s.stoppers| && s.once.InProgress? && s.once.owner == k
                        && (s.once.phase.WaitingForWorkers? ==> s.wg == 0)
    case Unblock(k) => k < |s.stoppers| && s.stoppers[k].Blocked? && s.once.Done?
  }

  function SetPc(s: State, i: nat, pc: SubmitPc): State
    requires i < |s.submitters|
  {
    s.(submitters := s.submitters[i := s.submitters[i].(pc := pc)])
  }

  /** A send that found room in the channel. */
  function Accept(s: State, i: nat): State
    requires i < |s.submitters|
  {
    var task := s.submitters[i].task;
    SetPc(s, i, Finished(Accepted)).(taskCh := s.taskCh + [task], accepted := s.accepted + [task])
  }

  /** A worker that returns runs its deferred wg.Done. */
  function Leave(s: State, w: nat, how: Worker): State
    requires w < |s.workers|
  {
    s.(workers := s.workers[w := how], wg := s.wg - 1)
  }

  function StopBody(s: State, k: nat): State
    requires Enabled(s, StopStep(k))
  {
    match s.once.phase
    case StoringFlag => s.(isStopping := true, once := InProgress(k, ClosingSignal))
    case ClosingSignal => s.(signalCloses := s.signalCloses + 1, once := InProgress(k, WaitingForWorkers))
    case WaitingForWorkers => s.(joined := |s.workers|, once := InProgress(k, ClosingTasks))
    case ClosingTasks =>
      s.(taskCloses := s.taskCloses + 1, once := Done, stoppers := s.stoppers[k := Returned])
  }

  function Step(s: State, a: Action): State
    requires Enabled(s, a)
  {
    match a
    case StartWorker => s.(workers := s.workers + [Idle], wg := s.wg + 1)
    case CallSubmit(task) => s.(submitters := s.submitters + [Submitter(task, LoadingFlag)])
    case CallStop => s.(stoppers := s.stoppers + [Entering])
    case Receive(w) =>
      s.(workers := s.workers[w := Handling(s.taskCh[0])],
         received := s.received + [s.taskCh[0]],
         taskCh := s.taskCh[1..])
    case ReceiveClosed(w) => Leave(s, w, ExitedOnClosed)
    case FinishTask(w) =>
      s.(workers := s.workers[w := Idle], handled := s.handled + multiset{s.workers[w].task})
    case SeeSignal(w) => Leave(s, w, ExitedOnSignal)
    case LoadFlag(i) => SetPc(s, i, if s.isStopping then Finished(RefusedAtStart) else Sending)
    case Send(i) => if s.taskCloses > 0 then SetPc(s, i, Finished(SentOnClosed)) else Accept(s, i)
    case TimeOut(i) => SetPc(s, i, ReloadingFlag)
    case ReloadFlag(i) => SetPc(s, i, if s.isStopping then Finished(RefusedAtRecheck) else Retrying)
    case Retry(i) =>
      if s.taskCloses > 0 then SetPc(s, i, Finished(SentOnClosed))
      else if |s.taskCh| < CAPACITY then Accept(s, i)
      else SetPc(s, i, Finished(QueueFull))
    case EnterOnce(k) =>
      if s.once.Fresh? then s.(once := InProgress(k, StoringFlag), stoppers := s.stoppers[k := Owner])
      else if s.once.Done? then s.(stoppers := s.stoppers[k := Returned])
      else s.(stoppers := s.stoppers[k := Blocked])
    case StopStep(k) => StopBody(s, k)
    case Unblock(k) => s.(stoppers := s.stoppers[k := Returned])
  }

  ghost predicate Execution(s: State, run: seq<Action>, t: State)
    decreases |run|
  {
    if run == [] then s == t
    else Enabled(s, run[0]) && Execution(Step(s, run[0]), run[1..], t)
  }

  ghost predicate Reachable(s: State)
  {
    exists run :: Execution(Init, run, s)
  }

  lemma {:induction false} ExecutionAppend(s: State, run: seq<Action>, t: State, more: seq<Action>, u: State)
    requires Execution(s, run, t) && Execution(t, more, u)
    ensures Execution(s, run + more, u)
    decreases |run|
  {
    if run == [] {
      assert run + more == more;
    } else {
      assert (run + more)[1..] == run[1..] + more;
      ExecutionAppend(Step(s, run[0]), run[1..], t, more, u);
    }
  }

  // ---------------------------------------------------------------- what every step keeps

  function Live(w: Worker): nat { if w.Exited() then 0 else 1 }

  function InHand(w: Worker): multiset<Task> { if w.Handling? then multiset{w.task} else multiset{} }

  function Placed(c: Submitter): multiset<Task>
  {
    if c.pc == Finished(Accepted) then multiset{c.task} else multiset{}
  }

  /** The channel keeps its bound and its order. */
  ghost predicate InOrder(s: State)
  {
    |s.taskCh| <= CAPACITY && s.received + s.taskCh == s.accepted
  }

  /** Every task taken from the channel was handled or is in one worker's hands. */
  ghost predicate NoneLost(s: State)
  {
    multiset(s.received) == s.handled + Collect(s.workers, InHand)
  }

  /** The accepted tasks are those of the Submit calls that returned nil. */
  ghost predicate AcceptedOnce(s: State)
  {
    multiset(s.accepted) == Collect(s.submitters, Placed)
  }

  /** The body of Stop runs once, in order, owned by one call. */
  ghost predicate StopOrdered(s: State)
  {
    && (s.isStopping <==> (s.once.Done? || (s.once.InProgress? && !s.once.phase.StoringFlag?)))
    && s.signalCloses == (if s.once.Done? || (s.once.InProgress? && (s.once.phase.WaitingForWorkers?
                                                                      || s.once.phase.ClosingTasks?)) then 1 else 0)
    && s.taskCloses == (if s.once.Done? then 1 else 0)
    && (s.once.InProgress? ==> s.once.owner < |s.stoppers|)
    && (forall k :: 0 <= k < |s.stoppers| ==>
         && (s.stoppers[k].Owner? <==> s.once.InProgress? && s.once.owner == k)
         && (s.stoppers[k].Returned? ==> s.once.Done?)
         && (s.stoppers[k].Blocked? ==> !s.once.Fresh?))
  }

  predicate WaitReturned(s: State)
  {
    s.once.Done? || (s.once.InProgress? && s.once.phase.ClosingTasks?)
  }

  /** Workers leave only when told to, and wg.Wait saw every worker started before it leave. */
  ghost predicate WorkersJoined(s: State)
  {
    && s.wg == Sum(s.workers, Live)
    && (forall w :: 0 <= w < |s.workers| && s.workers[w].Exited() ==> s.signalCloses > 0)
    && (WaitReturned(s) ==>
         s.joined <= |s.workers|
         && forall w :: 0 <= w < s.joined ==> s.workers[w].ExitedOnSignal?)
    && (forall w :: 0 <= w < |s.workers| && s.workers[w].ExitedOnClosed? ==> s.once.Done?)
  }

  ghost predicate Inv(s: State)
  {
    InOrder(s) && NoneLost(s) && AcceptedOnce(s) && StopOrdered(s) && WorkersJoined(s)
  }

  lemma InitInv()
    ensures Inv(Init)
  {
  }

  lemma InOrderStep(s: State, a: Action)
    requires InOrder(s) && Enabled(s, a)
    ensures InOrder(Step(s, a))
  {
    if a.Receive? {
      assert s.received + [s.taskCh[0]] + s.taskCh[1..] == s.received + s.taskCh;
    }
  }

  lemma ReceiveLosesNone(s: State, w: nat)
    requires NoneLost(s) && Enabled(s, Receive(w))
    ensures NoneLost(Step(s, Receive(w)))
  {
    var x := s.taskCh[0];
    CollectGain(s.workers, w, Handling(x), InHand);
    assert multiset(s.received + [x]) == multiset(s.received) + multiset{x};
  }

  lemma FinishLosesNone(s: State, w: nat)
    requires NoneLost(s) && Enabled(s, FinishTask(w))
    ensures NoneLost(Step(s, FinishTask(w)))
  {
    var x := s.workers[w].task;
    CollectUpdate(s.workers, w, Idle, InHand);
    assert Collect(s.workers[w := Idle], InHand) + multiset{x} == Collect(s.workers, InHand);
  }

  lemma LeaveLosesNone(s: State, w: nat, how: Worker)
    requires NoneLost(s) && w < |s.workers| && s.workers[w].Idle? && how.Exited()
    ensures NoneLost(Leave(s, w, how))
  {
    CollectGain(s.workers, w, how, InHand);
    assert Collect(s.workers[w := how], InHand) == Collect(s.workers, InHand);
  }

  lemma StartLosesNone(s: State, t: State)
    requires NoneLost(s) && t.workers == s.workers + [Idle] && t.received == s.received && t.handled == s.handled
    ensures NoneLost(t)
  {
    CollectAppend(s.workers, Idle, InHand);
    assert Collect(s.workers + [Idle], InHand) == Collect(s.workers, InHand);
  }

  /** Calls of Submit and Stop leave the workers and their tasks alone. */
  lemma CallsLeaveWorkers(s: State, a: Action, t: State)
    requires Enabled(s, a) && t == Step(s, a)
    requires !a.StartWorker? && !a.Receive? && !a.ReceiveClosed? && !a.FinishTask? && !a.SeeSignal?
    ensures t.workers == s.workers && t.received == s.received && t.handled == s.handled
  {
  }

  lemma NoneLostStep(s: State, a: Action)
    requires NoneLost(s) && Enabled(s, a)
    ensures NoneLost(Step(s, a))
  {
    match a
    case StartWorker => StartLosesNone(s, Step(s, a));
    case Receive(w) => ReceiveLosesNone(s, w);
    case ReceiveClosed(w) => LeaveLosesNone(s, w, ExitedOnClosed);
    case FinishTask(w) => FinishLosesNone(s, w);
    case SeeSignal(w) => LeaveLosesNone(s, w, ExitedOnSignal);
    case _ => CallsLeaveWorkers(s, a, Step(s, a));
  }

  lemma SetPcAcceptsNone(s: State, i: nat, pc: SubmitPc)
    requires AcceptedOnce(s) && i < |s.submitters| && !s.submitters[i].pc.Finished? && pc != Finished(Accepted)
    ensures AcceptedOnce(SetPc(s, i, pc))
  {
    CollectGain(s.submitters, i, s.submitters[i].(pc := pc), Placed);
    assert Collect(SetPc(s, i, pc).submitters, Placed) == Collect(s.submitters, Placed);
  }

  lemma AcceptAcceptsOne(s: State, i: nat)
    requires AcceptedOnce(s) && i < |s.submitters| && !s.submitters[i].pc.Finished?
    ensures AcceptedOnce(Accept(s, i))
  {
    var x := s.submitters[i].task;
    CollectGain(s.submitters, i, s.submitters[i].(pc := Finished(Accepted)), Placed);
    assert multiset(s.accepted + [x]) == multiset(s.accepted) + multiset{x};
  }

  lemma CallAcceptsNone(s: State, c: Submitter, t: State)
    requires AcceptedOnce(s) && c.pc.LoadingFlag?
    requires t.submitters == s.submitters + [c] && t.accepted == s.accepted
    ensures AcceptedOnce(t)
  {
    CollectAppend(s.submitters, c, Placed);
    assert Collect(s.submitters + [c], Placed) == Collect(s.submitters, Placed);
  }

  lemma MoveAcceptsOnce(s: State, a: Action)
    requires AcceptedOnce(s) && Enabled(s, a) && (a.LoadFlag? || a.Send? || a.TimeOut? || a.ReloadFlag? || a.Retry?)
    ensures AcceptedOnce(Step(s, a))
  {
    var pc := Step(s, a).submitters[a.i].pc;
    if pc == Finished(Accepted) {
      AcceptAcceptsOne(s, a.i);
      assert Step(s, a) == Accept(s, a.i);
    } else {
      SetPcAcceptsNone(s, a.i, pc);
      assert Step(s, a) == SetPc(s, a.i, pc);
    }
  }

  lemma AcceptedOnceStep(s: State, a: Action)
    requires AcceptedOnce(s) && Enabled(s, a)
    ensures AcceptedOnce(Step(s, a))
  {
    if a.CallSubmit? {
      CallAcceptsNone(s, Submitter(a.task, LoadingFlag), Step(s, a));
    } else if a.LoadFlag? || a.Send? || a.TimeOut? || a.ReloadFlag? || a.Retry? {
      MoveAcceptsOnce(s, a);
    } else {
      assert Step(s, a).submitters == s.submitters && Step(s, a).accepted == s.accepted;
    }
  }

  /** Workers and Submit calls leave the once, the flag and the closings alone. */
  lemma OthersLeaveStop(s: State, a: Action, t: State)
    requires Enabled(s, a) && t == Step(s, a)
    requires !a.CallStop? && !a.EnterOnce? && !a.StopStep? && !a.Unblock?
    ensures t.once == s.once && t.stoppers == s.stoppers && t.isStopping == s.isStopping
    ensures t.signalCloses == s.signalCloses && t.taskCloses == s.taskCloses
  {
  }

  lemma StopOrderedStep(s: State, a: Action)
    requires StopOrdered(s) && Enabled(s, a)
    ensures StopOrdered(Step(s, a))
  {
    if !a.CallStop? && !a.EnterOnce? && !a.StopStep? && !a.Unblock? {
      OthersLeaveStop(s, a, Step(s, a));
    }
  }

  lemma WorkerJoins(s: State, a: Action, w: nat, t: State)
    requires StopOrdered(s) && WorkersJoined(s) && Enabled(s, a) && t == Step(s, a)
    requires a == Receive(w) || a == ReceiveClosed(w) || a == FinishTask(w) || a == SeeSignal(w)
    ensures WorkersJoined(t)
  {
    SumUpdate(s.workers, w, t.workers[w], Live);
    assert t.workers == s.workers[w := t.workers[w]];
  }

  lemma StopJoins(s: State, k: nat, t: State)
    requires StopOrdered(s) && WorkersJoined(s) && Enabled(s, StopStep(k)) && t == Step(s, StopStep(k))
    ensures WorkersJoined(t)
  {
    SumZero(s.workers, Live);
  }

  lemma WorkersJoinedStep(s: State, a: Action)
    requires StopOrdered(s) && WorkersJoined(s) && Enabled(s, a)
    ensures WorkersJoined(Step(s, a))
  {
    var t := Step(s, a);
    match a
    case StartWorker => SumAppend(s.workers, Idle, Live);
    case Receive(w) => WorkerJoins(s, a, w, t);
    case ReceiveClosed(w) => WorkerJoins(s, a, w, t);
    case FinishTask(w) => WorkerJoins(s, a, w, t);
    case SeeSignal(w) => WorkerJoins(s, a, w, t);
    case StopStep(k) => StopJoins(s, k, t);
    case _ =>
  }

  lemma {:induction false} ExecutionInv(s: State, run: seq<Action>, t: State)
    requires Inv(s) && Execution(s, run, t)
    ensures Inv(t)
    decreases |run|
  {
    if run != [] {
      InOrderStep(s, run[0]);
      NoneLostStep(s, run[0]);
      AcceptedOnceStep(s, run[0]);
      StopOrderedStep(s, run[0]);
      WorkersJoinedStep(s, run[0]);
      ExecutionInv(Step(s, run[0]), run[1..], t);
    }
  }
}
