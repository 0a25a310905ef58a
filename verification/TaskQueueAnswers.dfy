/** What each answer of Submit means, what moves a worker, and when a task gets through. */
module TaskQueueAnswers {
  import opened Sums
  import opened TaskQueue
  import opened TaskQueueTheorems

  // ---------------------------------------------------------------- the answers

  /** A step answers the i-th Submit call, which had no answer yet. */
  predicate Answers(s: State, a: Action, i: nat, o: Outcome)
    requires Enabled(s, a)
  {
    i < |s.submitters| && !s.submitters[i].pc.Finished? && Step(s, a).submitters[i].pc == Finished(o)
  }

  /** The call is at one of its two sends. */
  predicate Sends(s: State, a: Action, i: nat)
  {
    i < |s.submitters|
    && ((a == Send(i) && s.submitters[i].pc == Sending) || (a == Retry(i) && s.submitters[i].pc == Retrying))
  }

  /** Submit returns nil exactly when one of its sends finds the channel open and with room,
      and then the channel has grown by its task. */
  lemma AcceptedIff(s: State, a: Action, i: nat)
    requires Enabled(s, a)
    ensures Answers(s, a, i, Accepted) <==> Sends(s, a, i) && s.taskCloses == 0 && |s.taskCh| < 100
    ensures Answers(s, a, i, Accepted) ==>
              && Step(s, a).taskCh == s.taskCh + [s.submitters[i].task]
              && Step(s, a).accepted == s.accepted + [s.submitters[i].task]
  {
  }

  /** Workers can be started, and Submit and Stop called, at any time. */
  lemma CallsArrive(s: State, task: Task)
    ensures Enabled(s, StartWorker) && Enabled(s, CallSubmit(task)) && Enabled(s, CallStop)
    ensures Step(s, CallSubmit(task)).submitters == s.submitters + [Submitter(task, LoadingFlag)]
    ensures Step(s, CallStop).stoppers == s.stoppers + [Entering]
    ensures Step(s, StartWorker).workers == s.workers + [Idle]
  {
  }

  /** It says the queue is full exactly when the second send finds no room in the open channel. */
  lemma QueueFullIff(s: State, a: Action, i: nat)
    requires Enabled(s, a)
    ensures Answers(s, a, i, QueueFull)
       <==> Sends(s, a, i) && a == Retry(i) && s.taskCloses == 0 && |s.taskCh| >= 100
  {
  }

  lemma FullMeansHundred(s: State, a: Action, i: nat)
    requires Reachable(s) && Enabled(s, a) && Answers(s, a, i, QueueFull)
    ensures |s.taskCh| == 100
  {
    ReachableInv(s);
    QueueFullIff(s, a, i);
  }

  /** It says the queue is stopping exactly when one of its two loads finds the flag set. */
  lemma RefusedIff(s: State, a: Action, i: nat)
    requires Enabled(s, a)
    ensures Answers(s, a, i, RefusedAtStart)
       <==> a == LoadFlag(i) && i < |s.submitters| && s.submitters[i].pc == LoadingFlag && s.isStopping
    ensures Answers(s, a, i, RefusedAtRecheck)
       <==> a == ReloadFlag(i) && i < |s.submitters| && s.submitters[i].pc == ReloadingFlag && s.isStopping
  {
  }

  /** And it panics exactly when one of its sends finds the channel closed. */
  lemma PanicsIff(s: State, a: Action, i: nat)
    requires Enabled(s, a)
    ensures Answers(s, a, i, SentOnClosed) <==> Sends(s, a, i) && s.taskCloses > 0
  {
  }

  /** A call comes to each of its other places from one place only, and nobody else moves it. */
  lemma OnItsWayIff(s: State, a: Action, i: nat)
    requires Enabled(s, a) && i < |s.submitters|
    ensures var pc, next := s.submitters[i].pc, Step(s, a).submitters[i].pc;
            && Step(s, a).submitters[i].task == s.submitters[i].task
            && (next != pc && next == Sending <==> a == LoadFlag(i) && pc == LoadingFlag && !s.isStopping)
            && (next != pc && next == ReloadingFlag <==> a == TimeOut(i) && pc == Sending)
            && (next != pc && next == Retrying <==> a == ReloadFlag(i) && pc == ReloadingFlag && !s.isStopping)
            && (next != pc ==> next != LoadingFlag && !pc.Finished? && a.Moves(i))
  {
  }

  // ---------------------------------------------------------------- workers and the channel

  /** What makes a worker take a task, finish it and leave. */
  lemma WorkerMovesIff(s: State, a: Action, w: nat)
    requires Enabled(s, a) && w < |s.workers|
    ensures var old', new' := s.workers[w], Step(s, a).workers[w];
            && (new' != old' && new'.Handling? <==> a == Receive(w) && old' == Idle && s.taskCh != [])
            && (a == Receive(w) ==> s.taskCh == [new'.task] + Step(s, a).taskCh)
            && (new' != old' && new' == Idle <==> a == FinishTask(w) && old'.Handling?)
            && (new' != old' && new' == ExitedOnSignal <==> a == SeeSignal(w) && old' == Idle && s.signalCloses > 0)
            && (new' != old' && new' == ExitedOnClosed
                <==> a == ReceiveClosed(w) && old' == Idle && s.taskCh == [] && s.taskCloses > 0)
  {
  }

  /** The channel changes by a Receive and by an accepted task, and by nothing else. */
  lemma ChannelKept(s: State, a: Action)
    requires Enabled(s, a) && !a.Receive? && !exists i :: 0 <= i < |s.submitters| && Answers(s, a, i, Accepted)
    ensures Step(s, a).taskCh == s.taskCh
  {
    if a.Send? || a.Retry? {
      AcceptedIff(s, a, a.i);
      assert !Answers(s, a, a.i, Accepted);
    }
  }

  // ---------------------------------------------------------------- tasks get through

  /** While the queue is not stopping and has room, a Submit about to load the flag can be
      accepted, with its task last in the channel. */
  lemma CanBeAccepted(s: State, i: nat)
    requires Reachable(s) && i < |s.submitters| && s.submitters[i].pc == LoadingFlag
    requires !s.isStopping && |s.taskCh| < 100
    ensures exists t: State ::
              Execution(s, [LoadFlag(i), Send(i)], t) && |t.submitters| == |s.submitters|
              && t.submitters[i].pc == Finished(Accepted) && t.taskCh == s.taskCh + [s.submitters[i].task]
  {
    ReachableInv(s);
    var a, b := LoadFlag(i), Send(i);
    var s1 := Step(s, a);
    var t := Step(s1, b);
    assert [a, b][1..] == [b] && [b][1..] == [];
    assert Execution(t, [], t);
    assert Execution(s1, [b], t);
    assert Execution(s, [a, b], t);
  }

  /** The once is entered by Stop calls only, a call that was refused was refused by a queue
      that is stopping, and one that sent on a closed channel by one that has stopped. */
  ghost predicate RefusalsTrue(s: State)
  {
    (s.stoppers == [] ==> s.once == Fresh)
    && forall i :: 0 <= i < |s.submitters| && s.submitters[i].pc.Finished? ==>
                     var o := s.submitters[i].pc.outcome;
                     && (o.RefusedAtStart? || o.RefusedAtRecheck? ==> s.isStopping)
                     && (o.SentOnClosed? ==> s.taskCloses > 0)
  }

  lemma FlagStays(s: State, a: Action, t: State)
    requires Enabled(s, a) && t == Step(s, a)
    ensures (s.isStopping ==> t.isStopping) && t.taskCloses >= s.taskCloses
  {
  }

  lemma StopFirst(s: State, a: Action, t: State)
    requires Enabled(s, a) && t == Step(s, a) && (s.stoppers == [] ==> s.once == Fresh)
    ensures t.stoppers == [] ==> t.once == Fresh
  {
    assert |t.stoppers| >= |s.stoppers|;
  }

  lemma RefusalsTrueStep(s: State, a: Action, t: State)
    requires RefusalsTrue(s) && Enabled(s, a) && t == Step(s, a)
    ensures RefusalsTrue(t)
  {
    FlagStays(s, a, t);
    StopFirst(s, a, t);
    forall i | 0 <= i < |t.submitters| && t.submitters[i].pc.Finished?
      ensures var o := t.submitters[i].pc.outcome;
              && (o.RefusedAtStart? || o.RefusedAtRecheck? ==> t.isStopping) && (o.SentOnClosed? ==> t.taskCloses > 0)
    {
      if i < |s.submitters| {
        OnItsWayIff(s, a, i);
        RefusedIff(s, a, i);
        PanicsIff(s, a, i);
      }
    }
  }

  lemma {:induction false} RefusalsTrueRun(s: State, run: seq<Action>, t: State)
    requires RefusalsTrue(s) && Execution(s, run, t)
    ensures RefusalsTrue(t)
    decreases |run|
  {
    if run != [] {
      RefusalsTrueStep(s, run[0], Step(s, run[0]));
      RefusalsTrueRun(Step(s, run[0]), run[1..], t);
    }
  }

  lemma IdleInVain(s: State, w: nat)
    requires Quiet(s) && WorkersJoined(s) && s.signalCloses == 0 && w < |s.workers|
    ensures s.workers[w] == Idle && s.taskCh == []
  {
    assert !Enabled(s, FinishTask(w)) && !Enabled(s, Receive(w));
  }

  /** Without any Stop nothing is refused but for want of room, and nothing is stuck: when no
      step is left every Submit has its answer, and if there is a worker every accepted task
      has been handled. */
  lemma QuietMeansServed(s: State)
    requires Reachable(s) && Quiet(s) && s.stoppers == []
    ensures forall i :: 0 <= i < |s.submitters| ==>
              s.submitters[i].pc == Finished(Accepted) || s.submitters[i].pc == Finished(QueueFull)
    ensures forall w :: 0 <= w < |s.workers| ==> s.workers[w] == Idle
    ensures s.workers != [] ==> s.taskCh == [] && s.handled == multiset(s.accepted)
  {
    ReachableInv(s);
    var run :| Execution(Init, run, s);
    RefusalsTrueRun(Init, run, s);
    assert s.once == Fresh && !s.isStopping && s.signalCloses == 0 && s.taskCloses == 0;
    forall i | 0 <= i < |s.submitters| ensures s.submitters[i].pc.Finished? {
      QuietSubmitter(s, |s.submitters|, i);
    }
    forall w | 0 <= w < |s.workers| ensures s.workers[w] == Idle && s.taskCh == [] {
      IdleInVain(s, w);
    }
    if s.workers != [] {
      assert s.workers[0] == Idle;
      NothingInHand(s);
    }
  }
}
