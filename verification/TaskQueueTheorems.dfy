/** What every run of the task queue keeps, how it shuts down, and who can hit the closed channel. */
module TaskQueueTheorems {
  import opened Sums
  import opened TaskQueue

  lemma ReachableInv(s: State)
    requires Reachable(s)
    ensures Inv(s)
  {
    var run :| Execution(Init, run, s);
    InitInv();
    ExecutionInv(Init, run, s);
  }

  // ---------------------------------------------------------------- conservation

  /** Tasks leave in the order they were accepted, whatever their priority, and each is
      handled at most once. */
  lemma FirstInFirstOut(s: State)
    requires Reachable(s)
    ensures |s.taskCh| <= CAPACITY && |s.received| <= |s.accepted|
    ensures s.received == s.accepted[..|s.received|] && s.taskCh == s.accepted[|s.received|..]
    ensures s.handled <= multiset(s.received)
    ensures multiset(s.accepted) == Collect(s.submitters, Placed)
  {
    ReachableInv(s);
    assert multiset(s.received) == s.handled + Collect(s.workers, InHand);
  }

  lemma NothingInHand(s: State)
    requires Inv(s)
    ensures multiset(s.accepted) == s.handled + multiset(s.taskCh)
       <==> forall w :: 0 <= w < |s.workers| ==> !s.workers[w].Handling?
  {
    var hands, queued := Collect(s.workers, InHand), multiset(s.taskCh);
    assert s.received + s.taskCh == s.accepted;
    assert multiset(s.accepted) == s.handled + hands + queued;
    if forall w :: 0 <= w < |s.workers| ==> !s.workers[w].Handling? {
      CollectEmpty(s.workers, InHand);
      assert s.handled + multiset{} == s.handled;
    } else {
      var w :| 0 <= w < |s.workers| && s.workers[w].Handling?;
      CollectUpdate(s.workers, w, Idle, InHand);
      assert |hands| >= 1;
      assert |multiset(s.accepted)| == |s.handled| + |hands| + |queued|;
    }
  }

  /** Once a Stop call is back: each channel was closed exactly once, and the workers started
      before wg.Wait returned left on the signal. Accepted tasks are the handled ones and
      those left behind exactly while no handler runs, and only a worker started later can
      run one. */
  lemma AfterStop(s: State, k: nat)
    requires Reachable(s) && k < |s.stoppers| && s.stoppers[k].Returned?
    ensures s.isStopping && s.signalCloses == 1 && s.taskCloses == 1
    ensures s.joined <= |s.workers| && forall w :: 0 <= w < s.joined ==> s.workers[w].ExitedOnSignal?
    ensures multiset(s.accepted) == s.handled + multiset(s.taskCh)
       <==> forall w :: s.joined <= w < |s.workers| ==> !s.workers[w].Handling?
  {
    ReachableInv(s);
    NothingInHand(s);
  }

  /** After a Stop is back a worker can take a task exactly if it was started after wg.Wait
      returned, is idle and a task was left behind. */
  lemma LateWorkersOnly(s: State, k: nat, w: nat)
    requires Reachable(s) && k < |s.stoppers| && s.stoppers[k].Returned?
    ensures Enabled(s, Receive(w)) <==> s.joined <= w < |s.workers| && s.workers[w].Idle? && s.taskCh != []
  {
    ReachableInv(s);
  }

  /** And whenever a Stop left tasks behind, a worker started then does run a handler. */
  lemma LateStartHandles(s: State, k: nat)
    requires Reachable(s) && k < |s.stoppers| && s.stoppers[k].Returned? && s.taskCh != []
    ensures exists t: State :: Execution(s, [StartWorker, Receive(|s.workers|)], t)
                               && |t.workers| == |s.workers| + 1 && t.workers[|s.workers|] == Handling(s.taskCh[0])
  {
    var a, b := StartWorker, Receive(|s.workers|);
    var s1 := Step(s, a);
    var t := Step(s1, b);
    assert [a, b][1..] == [b] && [b][1..] == [];
    assert Execution(t, [], t);
    assert Execution(s1, [b], t);
    assert Execution(s, [a, b], t);
  }

  /** No channel is ever closed twice, however many Stop calls there are, and the task
      channel is closed only when every worker that wg.Wait knew of has left. */
  lemma ClosedOnce(s: State)
    requires Reachable(s)
    ensures s.taskCloses <= s.signalCloses <= 1
    ensures s.taskCloses == 1 ==> s.isStopping && s.joined <= |s.workers|
                                  && forall w :: 0 <= w < s.joined ==> s.workers[w].Exited()
  {
    ReachableInv(s);
  }

  /** The closed-channel branch of the worker loop is open to exactly the idle workers
      started after wg.Wait returned, once the channel is closed and empty; so without
      such a late start no worker ever takes it. */
  lemma ClosedBranchNeedsLateStart(s: State, w: nat)
    requires Reachable(s)
    ensures Enabled(s, ReceiveClosed(w)) <==>
              s.joined <= w < |s.workers| && s.workers[w].Idle? && s.once.Done? && s.taskCh == []
    ensures w < |s.workers| && s.workers[w].ExitedOnClosed? ==> s.once.Done? && s.joined <= w
  {
    ReachableInv(s);
  }

  // ---------------------------------------------------------------- submitting against a stop

  /** Refused at the first flag load, or still before it. */
  predicate TurnedAway(c: Submitter)
  {
    c.pc.LoadingFlag? || c.pc == Finished(RefusedAtStart)
  }

  lemma TurnedAwayStays(s: State, a: Action)
    requires s.isStopping && Enabled(s, a)
    ensures Step(s, a).isStopping && |s.submitters| <= |Step(s, a).submitters|
    ensures forall i :: |s.submitters| <= i < |Step(s, a).submitters| ==> TurnedAway(Step(s, a).submitters[i])
    ensures forall i :: 0 <= i < |s.submitters| && TurnedAway(s.submitters[i]) ==> TurnedAway(Step(s, a).submitters[i])
  {
  }

  /** A Submit that loads the flag after Stop stored it adds nothing, in any run. */
  lemma {:induction false} LateSubmitAddsNothing(s: State, run: seq<Action>, t: State)
    requires s.isStopping && Execution(s, run, t)
    ensures t.isStopping && |s.submitters| <= |t.submitters|
    ensures forall i :: |s.submitters| <= i < |t.submitters| ==> TurnedAway(t.submitters[i])
    ensures forall i :: 0 <= i < |s.submitters| && TurnedAway(s.submitters[i]) ==> TurnedAway(t.submitters[i])
    decreases |run|
  {
    if run != [] {
      TurnedAwayStays(s, run[0]);
      LateSubmitAddsNothing(Step(s, run[0]), run[1..], t);
    }
  }

  /** Past its last look at the flag, or about to look while the flag is unset. */
  predicate MayMeetClosed(s: State, i: nat)
    requires i < |s.submitters|
  {
    var pc := s.submitters[i].pc;
    pc.Sending? || pc.Retrying? || (!s.isStopping && (pc.LoadingFlag? || pc.ReloadingFlag?))
  }

  // ---------------------------------------------------------------- shutdown drains

  function SubmitWork(c: Submitter): nat
  {
    match c.pc
    case LoadingFlag => 7
    case Sending => 6
    case ReloadingFlag => 5
    case Retrying => 4
    case Finished(_) => 0
  }

  function WorkerWork(w: Worker): nat
  {
    if w.Exited() then 0 else if w.Idle? then 1 else 2
  }

  function StopperWork(k: Stopper): nat
  {
    match k
    case Entering => 2
    case Blocked => 1
    case _ => 0
  }

  function OnceWork(o: Once): nat
  {
    match o
    case Fresh => 5
    case InProgress(_, StoringFlag) => 4
    case InProgress(_, ClosingSignal) => 3
    case InProgress(_, WaitingForWorkers) => 2
    case InProgress(_, ClosingTasks) => 1
    case Done => 0
  }

  /** Work left: a submitted task still has to pass the channel and one worker. */
  function Work(s: State): nat
  {
    Sum(s.submitters, SubmitWork) + 2 * |s.taskCh| + Sum(s.workers, WorkerWork)
    + Sum(s.stoppers, StopperWork) + OnceWork(s.once)
  }

  lemma WorkerTakesWork(s: State, a: Action, w: nat)
    requires Enabled(s, a) && (a == Receive(w) || a == ReceiveClosed(w) || a == FinishTask(w) || a == SeeSignal(w))
    ensures Work(Step(s, a)) < Work(s)
  {
    SumUpdate(s.workers, w, Step(s, a).workers[w], WorkerWork);
  }

  lemma SubmitterTakesWork(s: State, a: Action, i: nat)
    requires Enabled(s, a) && a.Moves(i)
    ensures Work(Step(s, a)) < Work(s)
  {
    var t := Step(s, a);
    SumUpdate(s.submitters, i, t.submitters[i], SubmitWork);
    assert t.submitters == s.submitters[i := t.submitters[i]];
    assert |t.taskCh| <= |s.taskCh| + (if t.submitters[i].pc == Finished(Accepted) then 1 else 0);
  }

  lemma StopperTakesWork(s: State, a: Action, k: nat)
    requires Enabled(s, a) && (a == EnterOnce(k) || a == StopStep(k) || a == Unblock(k))
    ensures Work(Step(s, a)) < Work(s)
  {
    var t := Step(s, a);
    assert t.stoppers == s.stoppers[k := t.stoppers[k]];
    SumUpdate(s.stoppers, k, t.stoppers[k], StopperWork);
    assert t.submitters == s.submitters && t.workers == s.workers && t.taskCh == s.taskCh;
    assert StopperWork(t.stoppers[k]) + OnceWork(t.once) < StopperWork(s.stoppers[k]) + OnceWork(s.once);
  }

  /** Every step but a new call takes work away. */
  lemma StepTakesWork(s: State, a: Action)
    requires Enabled(s, a) && !a.Arrival()
    ensures Work(Step(s, a)) < Work(s)
  {
    if a.Receive? || a.ReceiveClosed? || a.FinishTask? || a.SeeSignal? {
      WorkerTakesWork(s, a, a.w);
    } else if a.LoadFlag? || a.Send? || a.TimeOut? || a.ReloadFlag? || a.Retry? {
      SubmitterTakesWork(s, a, a.i);
    } else {
      StopperTakesWork(s, a, a.k);
    }
  }

  ghost predicate NoArrival(run: seq<Action>)
  {
    forall i :: 0 <= i < |run| ==> !run[i].Arrival()
  }

  /** With no new calls every run is short: no schedule keeps the queue busy for ever. */
  lemma {:induction false} RunsAreBounded(s: State, run: seq<Action>, t: State)
    requires Execution(s, run, t) && NoArrival(run)
    ensures |run| + Work(t) <= Work(s)
    decreases |run|
  {
    if run != [] {
      StepTakesWork(s, run[0]);
      RunsAreBounded(Step(s, run[0]), run[1..], t);
    }
  }

  /** No step is left, except perhaps those of Submit call c. */
  ghost predicate QuietBut(s: State, c: nat)
  {
    forall a: Action :: Enabled(s, a) ==> a.Arrival() || a.Moves(c)
  }

  ghost predicate Quiet(s: State)
  {
    forall a: Action :: Enabled(s, a) ==> a.Arrival()
  }

  lemma QuietSubmitter(s: State, c: nat, i: nat)
    requires QuietBut(s, c) && i < |s.submitters| && i != c
    ensures s.submitters[i].pc.Finished?
  {
    assert !Enabled(s, LoadFlag(i)) && !Enabled(s, TimeOut(i)) && !Enabled(s, ReloadFlag(i)) && !Enabled(s, Retry(i));
  }

  lemma QuietWorker(s: State, c: nat, w: nat)
    requires QuietBut(s, c) && w < |s.workers|
    ensures !s.workers[w].Handling? && (s.signalCloses > 0 ==> s.workers[w].Exited())
  {
    assert !Enabled(s, FinishTask(w)) && !Enabled(s, SeeSignal(w));
  }

  lemma QuietWaitGroup(s: State, c: nat)
    requires WorkersJoined(s) && QuietBut(s, c) && s.signalCloses > 0
    ensures s.wg == 0
  {
    forall w | 0 <= w < |s.workers| ensures s.workers[w].Exited() {
      QuietWorker(s, c, w);
    }
    SumZero(s.workers, Live);
  }

  lemma QuietOnce(s: State, c: nat)
    requires Inv(s) && QuietBut(s, c)
    ensures !s.once.InProgress?
  {
    var owner := if s.once.InProgress? then s.once.owner else 0;
    assert !Enabled(s, StopStep(owner));
    if s.signalCloses > 0 {
      QuietWaitGroup(s, c);
    }
  }

  lemma QuietStopper(s: State, c: nat, k: nat)
    requires StopOrdered(s) && QuietBut(s, c) && !s.once.InProgress? && k < |s.stoppers|
    ensures s.stoppers[k].Returned? && s.once.Done?
  {
    assert !Enabled(s, EnterOnce(k)) && !Enabled(s, Unblock(k));
  }

  /** Nothing is stuck: when no step is left after a Stop was called, every Stop call is
      back, every worker has left, and every other Submit has its answer. */
  lemma QuietMeansStopped(s: State, c: nat)
    requires Inv(s) && QuietBut(s, c) && s.stoppers != []
    ensures s.once.Done?
    ensures forall k :: 0 <= k < |s.stoppers| ==> s.stoppers[k].Returned?
    ensures forall w :: 0 <= w < |s.workers| ==> s.workers[w].Exited()
    ensures forall i :: 0 <= i < |s.submitters| && i != c ==> s.submitters[i].pc.Finished?
  {
    QuietOnce(s, c);
    QuietStopper(s, c, 0);
    forall k | 0 <= k < |s.stoppers| ensures s.stoppers[k].Returned? {
      QuietStopper(s, c, k);
    }
    forall w | 0 <= w < |s.workers| ensures s.workers[w].Exited() {
      QuietWorker(s, c, w);
    }
    forall i | 0 <= i < |s.submitters| && i != c ensures s.submitters[i].pc.Finished? {
      QuietSubmitter(s, c, i);
    }
  }

  lemma CountsStay(s: State, a: Action, c: nat)
    requires Enabled(s, a) && !a.Arrival() && !a.Moves(c)
    ensures var t := Step(s, a);
            && |t.submitters| == |s.submitters| && |t.stoppers| == |s.stoppers| && |t.workers| == |s.workers|
            && (c < |s.submitters| ==> t.submitters[c] == s.submitters[c])
  {
  }

  lemma SettleStep(s: State, c: nat) returns (a: Action, t: State)
    requires Inv(s) && !QuietBut(s, c)
    ensures Enabled(s, a) && !a.Arrival() && t == Step(s, a) && Inv(t) && Work(t) < Work(s)
    ensures |t.submitters| == |s.submitters| && |t.stoppers| == |s.stoppers| && |t.workers| == |s.workers|
    ensures c < |s.submitters| ==> t.submitters[c] == s.submitters[c]
  {
    a :| Enabled(s, a) && !a.Arrival() && !a.Moves(c);
    t := Step(s, a);
    StepTakesWork(s, a);
    CountsStay(s, a, c);
    assert Execution(t, [], t) && [a][1..] == [];
    ExecutionInv(s, [a], t);
  }

  lemma RunFrom(s: State, a: Action, next: State, rest: seq<Action>, t: State) returns (run: seq<Action>)
    requires Enabled(s, a) && next == Step(s, a) && !a.Arrival()
    requires Execution(next, rest, t) && NoArrival(rest)
    ensures Execution(s, run, t) && NoArrival(run)
  {
    run := [a] + rest;
    assert run[0] == a && run[1..] == rest;
    assert forall i :: 0 < i < |run| ==> run[i] == rest[i - 1];
  }

  /** Runs everything but Submit call c until nothing else can move. */
  lemma {:induction false} Settle(s: State, c: nat) returns (run: seq<Action>, t: State)
    requires Inv(s)
    ensures Execution(s, run, t) && NoArrival(run) && Inv(t) && QuietBut(t, c)
    ensures |t.submitters| == |s.submitters| && |t.stoppers| == |s.stoppers| && |t.workers| == |s.workers|
    ensures c < |s.submitters| ==> t.submitters[c] == s.submitters[c]
    decreases Work(s)
  {
    if QuietBut(s, c) {
      run, t := [], s;
    } else {
      var a, next := SettleStep(s, c);
      var rest;
      rest, t := Settle(next, c);
      run := RunFrom(s, a, next, rest, t);
    }
  }

  lemma {:induction false} StoppersStay(s: State, run: seq<Action>, t: State)
    requires Execution(s, run, t)
    ensures |s.stoppers| <= |t.stoppers|
    decreases |run|
  {
    if run != [] {
      StoppersStay(Step(s, run[0]), run[1..], t);
    }
  }

  predicate AllBack(t: State)
  {
    && (forall k :: 0 <= k < |t.stoppers| ==> t.stoppers[k].Returned?)
    && (forall w :: 0 <= w < |t.workers| ==> t.workers[w].Exited())
    && (forall i :: 0 <= i < |t.submitters| ==> t.submitters[i].pc.Finished?)
  }

  lemma QuietRun(s: State, run: seq<Action>, t: State)
    requires Inv(s) && s.stoppers != [] && Execution(s, run, t) && NoArrival(run) && Quiet(t)
    ensures |run| <= Work(s) && AllBack(t)
  {
    RunsAreBounded(s, run, t);
    ExecutionInv(s, run, t);
    StoppersStay(s, run, t);
    QuietMeansStopped(t, |t.submitters|);
  }

  lemma CanSettle(s: State)
    requires Inv(s)
    ensures exists run, t: State :: Execution(s, run, t) && NoArrival(run) && Quiet(t)
  {
    var nobody := |s.submitters|;
    var run, t := Settle(s, nobody);
    forall a: Action | Enabled(t, a) ensures a.Arrival() {
      assert !a.Moves(nobody);
    }
  }

  /** A Stop that was called can always finish, and every maximal run without new calls
      ends with every Stop back, every worker gone and every Submit answered. */
  lemma StopCompletes(s: State)
    requires Reachable(s) && s.stoppers != []
    ensures exists run, t: State :: Execution(s, run, t) && NoArrival(run) && Quiet(t)
    ensures forall run, t: State :: Execution(s, run, t) && NoArrival(run) && Quiet(t) ==>
              |run| <= Work(s) && AllBack(t)
  {
    ReachableInv(s);
    forall run, t: State | Execution(s, run, t) && NoArrival(run) && Quiet(t)
      ensures |run| <= Work(s) && AllBack(t) {
      QuietRun(s, run, t);
    }
    CanSettle(s);
  }

  // ---------------------------------------------------------------- sends on the closed channel

  ghost predicate CanSendOnClosed(s: State, i: nat)
  {
    exists run, t: State :: Execution(s, run, t) && i < |t.submitters| && t.submitters[i].pc == Finished(SentOnClosed)
  }

  lemma SafeStaysSafe(s: State, i: nat, a: Action)
    requires Inv(s) && i < |s.submitters| && Enabled(s, a)
    requires !MayMeetClosed(s, i) && s.submitters[i].pc != Finished(SentOnClosed)
    ensures i < |Step(s, a).submitters|
    ensures !MayMeetClosed(Step(s, a), i) && Step(s, a).submitters[i].pc != Finished(SentOnClosed)
  {
    var t := Step(s, a);
    assert s.isStopping ==> t.isStopping;
    if !a.Moves(i) {
      assert t.submitters[i] == s.submitters[i];
    }
  }

  lemma {:induction false} OnlyThoseMeetClosed(s: State, i: nat, run: seq<Action>, t: State)
    requires Inv(s) && i < |s.submitters| && Execution(s, run, t)
    requires !MayMeetClosed(s, i) && s.submitters[i].pc != Finished(SentOnClosed)
    ensures i < |t.submitters| && t.submitters[i].pc != Finished(SentOnClosed)
    decreases |run|
  {
    if run != [] {
      var m := Step(s, run[0]);
      ExecutionInv(s, [run[0]], m);
      SafeStaysSafe(s, i, run[0]);
      OnlyThoseMeetClosed(m, i, run[1..], t);
    }
  }

  lemma PassFlagCheck(s: State, i: nat) returns (run: seq<Action>, t: State)
    requires Inv(s) && i < |s.submitters| && MayMeetClosed(s, i)
    ensures Execution(s, run, t) && Inv(t) && i < |t.submitters|
    ensures t.submitters[i].pc.Sending? || t.submitters[i].pc.Retrying?
  {
    var pc := s.submitters[i].pc;
    if pc.Sending? || pc.Retrying? {
      run, t := [], s;
    } else {
      var a := if pc.LoadingFlag? then LoadFlag(i) else ReloadFlag(i);
      run, t := [a], Step(s, a);
      ExecutionInv(s, run, t);
    }
  }

  /** A Stop called now runs to its end while the Submit call stands still. */
  lemma StopMeanwhile(s: State, i: nat) returns (run: seq<Action>, t: State)
    requires Inv(s) && i < |s.submitters|
    ensures Execution(s, run, t) && Inv(t) && t.once.Done?
    ensures i < |t.submitters| && t.submitters[i] == s.submitters[i]
  {
    var called := Step(s, CallStop);
    ExecutionInv(s, [CallStop], called);
    var rest;
    rest, t := Settle(called, i);
    QuietMeansStopped(t, i);
    run := [CallStop] + rest;
    ExecutionAppend(s, [CallStop], called, rest, t);
  }

  lemma SendOnClosed(s: State, i: nat) returns (a: Action)
    requires Inv(s) && s.once.Done? && i < |s.submitters|
    requires s.submitters[i].pc.Sending? || s.submitters[i].pc.Retrying?
    ensures Enabled(s, a) && i < |Step(s, a).submitters| && Step(s, a).submitters[i].pc == Finished(SentOnClosed)
  {
    a := if s.submitters[i].pc.Sending? then Send(i) else Retry(i);
  }

  /** From the moment it may, some schedule makes the call send on the closed channel. */
  lemma ThoseDoMeetClosed(s: State, i: nat)
    requires Inv(s) && i < |s.submitters| && MayMeetClosed(s, i)
    ensures CanSendOnClosed(s, i)
  {
    var run1, s1 := PassFlagCheck(s, i);
    var run2, s2 := StopMeanwhile(s1, i);
    var a := SendOnClosed(s2, i);
    ExecutionAppend(s, run1, s1, run2, s2);
    ExecutionAppend(s, run1 + run2, s2, [a], Step(s2, a));
  }

  /** Exactly the Submit calls past a flag check, or facing one with the flag unset, can
      send on the closed channel. */
  lemma WhoCanSendOnClosed(s: State, i: nat)
    requires Reachable(s) && i < |s.submitters| && s.submitters[i].pc != Finished(SentOnClosed)
    ensures CanSendOnClosed(s, i) <==> MayMeetClosed(s, i)
  {
    ReachableInv(s);
    if MayMeetClosed(s, i) {
      ThoseDoMeetClosed(s, i);
    } else if CanSendOnClosed(s, i) {
      var run, t: State :| Execution(s, run, t) && i < |t.submitters| && t.submitters[i].pc == Finished(SentOnClosed);
      OnlyThoseMeetClosed(s, i, run, t);
    }
  }

  /** The closed-channel branch of the worker loop is not dead code: after a finished Stop
      that left nothing in the channel, a worker started late takes it. */
  lemma LateStartTakesClosedBranch(s: State)
    requires Inv(s) && s.once.Done? && s.taskCh == []
    ensures exists t: State :: Execution(s, [StartWorker, ReceiveClosed(|s.workers|)], t)
                               && t.workers == s.workers + [ExitedOnClosed]
  {
    var w := |s.workers|;
    var s1 := Step(s, StartWorker);
    var s2 := Step(s1, ReceiveClosed(w));
    var run := [StartWorker, ReceiveClosed(w)];
    assert Execution(s1, run[1..], s2) by { assert Execution(s2, run[1..][1..], s2); }
    assert s2.workers == s.workers + [ExitedOnClosed];
  }
}
