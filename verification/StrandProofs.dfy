/**
  What every step of the strand keeps, and what that means for whole runs.
 */
module StrandProofs {
  import opened Strand

  lemma RecordsSnoc(events: seq<Event>, e: Event)
    ensures Records(events + [e]) == Records(events) + [e.record]
  {
  }

  lemma InitInv()
    ensures Inv(Init())
  {
  }

  lemma SomeWorker(s: State) returns (w: nat)
    requires OneWorker(s) && s.active
    ensures w in s.tasks && Working(s.tasks[w])
  {
    w :| w in s.tasks && Working(s.tasks[w]);
  }

  /** Becoming the drainer, from a state with no worker. */
  lemma StartDrainInv(s: State, n: nat, s': State)
    requires s.closed && !s.active && n !in s.tasks && s' == StartDrain(s, n)
    requires forall i | i in s.tasks :: !Working(s.tasks[i])
    requires s.enqueued == Records(s.begun) + s.deferred + s.queue && Records(s.begun) == s.finished
    requires s.lateValues <= 1
    ensures Inv(s')
  {
    assert n in s'.tasks && Working(s'.tasks[n]);
    assert Held(s'.tasks[n]) == s.deferred + s.queue;
  }

  lemma DeferOne(a: seq<Record>, deferred: seq<Record>, queue: seq<Record>, r: Record)
    ensures a + deferred + queue + [r] == a + (deferred + queue + [r]) + []
  {
  }

  lemma EnqueueStoppedInv(s: State, r: Record, n: nat, s0: State, s': State)
    requires Inv(s) && n !in s.tasks
    requires s0 == s.(closed := true, enqueued := s.enqueued + [r]) && s' == EnqueueStopped(s0, r, n)
    ensures Inv(s')
  {
    if s.active {
      var w := SomeWorker(s);
      assert w in s'.tasks && Working(s'.tasks[w]);
      DeferOne(Records(s.begun) + Held(s.tasks[w]), s.deferred, s.queue, r);
    } else {
      DeferOne(Records(s.begun), s.deferred, s.queue, r);
      StartDrainInv(s0.(queue := [], deferred := s.deferred + s.queue + [r]), n, s');
    }
  }

  lemma EnqueueInv(s: State, r: Record, th: Thread, grows: bool, n: nat)
    requires Inv(s) && n !in s.tasks
    ensures Inv(Enqueue(s, r, th, grows, n))
  {
    var s' := Enqueue(s, r, th, grows, n);
    if s.closed || !grows {
      EnqueueStoppedInv(s, r, n, s.(closed := true, enqueued := s.enqueued + [r]), s');
    } else {
      forall i | i in s'.tasks && Working(s'.tasks[i])
        ensures s'.enqueued == Records(s'.begun) + Held(s'.tasks[i]) + s'.deferred + s'.queue
      {
        assert i in s.tasks && s.tasks[i] == s'.tasks[i];
      }
    }
  }

  lemma ShutdownInv(s: State, n: nat)
    requires Inv(s) && n !in s.tasks
    ensures Inv(Shutdown(s, n))
  {
    if !s.active && (s.queue != [] || s.deferred != []) {
      StartDrainInv(s.(closed := true), n, Shutdown(s, n));
    }
  }

  lemma RunOneInv(s: State, i: nat)
    requires Inv(s) && i in s.tasks && s.tasks[i].Runner?
    ensures Inv(RunOne(s, i))
  {
    var s' := RunOne(s, i);
    if s.active {
      var w := SomeWorker(s);
      assert w in s'.tasks && Working(s'.tasks[w]);
    } else if s.queue != [] && !s.closed {
      assert i in s'.tasks && Working(s'.tasks[i]);
      assert s.queue == [s.queue[0]] + s.queue[1..];
    }
  }

  lemma BeginTurnInv(s: State, i: nat)
    requires Inv(s) && i in s.tasks && s.tasks[i].Popped?
    ensures Inv(BeginTurn(s, i))
  {
    var s' := BeginTurn(s, i);
    var r := s.tasks[i].record;
    RecordsSnoc(s.begun, Event(r, if r.stopOnly then Stopped else Value));
    assert i in s'.tasks && Working(s'.tasks[i]) && Working(s.tasks[i]);
  }

  lemma EndTurnInv(s: State, i: nat, th: Thread)
    requires Inv(s) && i in s.tasks && s.tasks[i].Completing?
    ensures Inv(EndTurn(s, i, th))
  {
    var s' := EndTurn(s, i, th);
    assert Working(s.tasks[i]);
    if s.closed && (s.queue != [] || s.deferred != []) {
      assert i in s'.tasks && Working(s'.tasks[i]);
      assert Held(s'.tasks[i]) == s.deferred + s.queue;
    }
  }

  lemma BeginStoppedInv(s: State, i: nat)
    requires Inv(s) && Enabled(s, DoBeginStopped(i))
    ensures Inv(BeginStopped(s, i))
  {
    var s' := BeginStopped(s, i);
    var b := s.tasks[i];
    RecordsSnoc(s.begun, Event(b.rest[0], Stopped));
    MoveOne(Records(s.begun), b.rest, s.deferred + s.queue);
    hide Records;
    assert i in s'.tasks && Working(s'.tasks[i]) && Working(s.tasks[i]);
    assert s.enqueued == Records(s.begun) + b.rest + (s.deferred + s.queue);
    assert s'.enqueued == Records(s'.begun) + b.rest[1..] + s.deferred + s.queue;
  }

  lemma MoveOne(done: seq<Record>, rest: seq<Record>, later: seq<Record>)
    requires rest != []
    ensures done + rest + later == done + [rest[0]] + rest[1..] + later
  {
    assert rest == [rest[0]] + rest[1..];
  }

  lemma EndStoppedInv(s: State, i: nat)
    requires Inv(s) && Enabled(s, DoEndStopped(i))
    ensures Inv(EndStopped(s, i))
  {
    var s' := EndStopped(s, i);
    assert i in s'.tasks && Working(s'.tasks[i]) && Working(s.tasks[i]);
  }

  lemma RefillInv(s: State, i: nat)
    requires Inv(s) && Enabled(s, DoRefill(i))
    ensures Inv(Refill(s, i))
  {
    var s' := Refill(s, i);
    assert Working(s.tasks[i]);
    if s.deferred + s.queue != [] {
      assert i in s'.tasks && Working(s'.tasks[i]);
      assert Held(s'.tasks[i]) == s.deferred + s.queue;
    }
  }

  lemma EnterLaunchInv(s: State, i: nat)
    requires Inv(s) && i in s.tasks && s.tasks[i].Launch?
    ensures Inv(EnterLaunch(s, i))
  {
    var s' := EnterLaunch(s, i);
    var th := s.tasks[i].th;
    if s.active {
      var w := SomeWorker(s);
      assert w in s'.tasks && Working(s'.tasks[w]);
    }
    if !s.closed && th in s.guards {
      assert s'.tasks == map[];
      assert th in s'.guards && s'.guards[th];
    }
  }

  lemma LaunchOnceInv(s: State, i: nat)
    requires Inv(s) && i in s.tasks && s.tasks[i].Once?
    ensures Inv(LaunchOnce(s, i))
  {
    var s' := LaunchOnce(s, i);
    assert i in s'.tasks;
    if s.active {
      var w := SomeWorker(s);
      assert w in s'.tasks && Working(s'.tasks[w]);
    }
  }

  lemma LaunchFailsInv(s: State, i: nat)
    requires Inv(s) && i in s.tasks && (s.tasks[i].Once? || s.tasks[i].Runner?)
    ensures Inv(LaunchFails(s, i))
  {
    var s' := LaunchFails(s, i);
    if s.active {
      var w := SomeWorker(s);
      assert w in s'.tasks && Working(s'.tasks[w]);
    } else if s.queue != [] || s.deferred != [] {
      StartDrainInv(s.(closed := true, tasks := s.tasks - {i}), i, s');
    }
  }

  lemma LaunchLoopEndInv(s: State, th: Thread, n: nat)
    requires Inv(s) && th in s.guards && n !in s.tasks
    ensures Inv(LaunchLoopEnd(s, th, n))
  {
    var s' := LaunchLoopEnd(s, th, n);
    if s.active {
      var w := SomeWorker(s);
      assert w in s'.tasks && Working(s'.tasks[w]);
    }
    if !s.closed {
      if s.guards[th] { assert n in s'.tasks; }
      if s.running && s.tasks == map[] && !s.guards[th] {
        var f :| f in s.guards && s.guards[f];
        assert f in s'.guards && s'.guards[f];
      }
    }
  }

  lemma StepInv(s: State, step: Step)
    requires Inv(s) && Enabled(s, step)
    ensures Inv(Apply(s, step))
  {
    match step
    case DoEnqueue(r, th, grows, n) => EnqueueInv(s, r, th, grows, n);
    case DoShutdown(n) => ShutdownInv(s, n);
    case DoRunOne(i) => RunOneInv(s, i);
    case DoBeginTurn(i) => BeginTurnInv(s, i);
    case DoEndTurn(i, th) => EndTurnInv(s, i, th);
    case DoBeginStopped(i) => BeginStoppedInv(s, i);
    case DoEndStopped(i) => EndStoppedInv(s, i);
    case DoRefill(i) => RefillInv(s, i);
    case DoEnterLaunch(i) => EnterLaunchInv(s, i);
    case DoLaunchOnce(i) => LaunchOnceInv(s, i);
    case DoLaunchFails(i) => LaunchFailsInv(s, i);
    case DoLaunchLoopEnd(th, n) => LaunchLoopEndInv(s, th, n);
  }

  /** The invariant holds in every state of every run. */
  lemma {:induction false} RunInv(run: seq<State>, steps: seq<Step>, k: nat)
    requires IsRun(run, steps) && k < |run|
    ensures Inv(run[k])
  {
    hide Inv, Apply, Enabled;
    if k == 0 {
      InitInv();
    } else {
      RunInv(run, steps, k - 1);
      StepInv(run[k - 1], steps[k - 1]);
    }
  }

  // ----- What it means

  /** Completions begin in exactly the order of the enqueues, and one at a time. */
  lemma SerialInOrder(run: seq<State>, steps: seq<Step>, k: nat)
    requires IsRun(run, steps) && k < |run|
    ensures Records(run[k].begun) <= run[k].enqueued
    ensures run[k].finished <= Records(run[k].begun)
    ensures |run[k].begun| <= |run[k].finished| + 1
  {
    hide Apply, Enabled, IsRun;
    RunInv(run, steps, k);
    var s := run[k];
    if s.active {
      var w := SomeWorker(s);
    }
  }

  /** The predicate that `wait` blocks on. */
  predicate WaitOver(s: State) { s.queue == [] && !s.running }

  /** When wait returns, every record enqueued so far has been completed exactly once. */
  lemma WaitMeansDone(run: seq<State>, steps: seq<Step>, k: nat)
    requires IsRun(run, steps) && k < |run| && WaitOver(run[k])
    ensures run[k].finished == run[k].enqueued && Records(run[k].begun) == run[k].enqueued
  {
    hide Apply, Enabled, IsRun;
    RunInv(run, steps, k);
  }

  /** Nothing is ever stranded: when no thread has anything left to do, all work is done and wait returns. */
  lemma NothingStranded(run: seq<State>, steps: seq<Step>, k: nat)
    requires IsRun(run, steps) && k < |run|
    requires run[k].tasks == map[] && forall th | th in run[k].guards :: !run[k].guards[th]
    ensures WaitOver(run[k]) && run[k].deferred == [] && run[k].finished == run[k].enqueued
  {
    hide Apply, Enabled, IsRun;
    RunInv(run, steps, k);
    var s := run[k];
    assert !s.active by {
      if s.active { var w := SomeWorker(s); }
    }
  }

  /** While open, running means exactly one pending launch, outstanding runner or turn. */
  lemma RunningMeansOneToken(run: seq<State>, steps: seq<Step>, k: nat)
    requires IsRun(run, steps) && k < |run| && !run[k].closed
    ensures var s := run[k];
            && (s.running <==> s.tasks != map[] || exists th :: th in s.guards && s.guards[th])
            && (forall i, j | i in s.tasks && j in s.tasks :: i == j)
            && (s.tasks != map[] ==> forall th | th in s.guards :: !s.guards[th])
            && (forall a, b | a in s.guards && b in s.guards && s.guards[a] && s.guards[b] :: a == b)
            && (s.queue != [] ==> s.running)
  {
    hide Apply, Enabled, IsRun;
    RunInv(run, steps, k);
    var s := run[k];
    if s.tasks != map[] { var i :| i in s.tasks; }
  }

  /** A raised relaunch flag is never overwritten while the strand is open: no launch is lost. */
  lemma RelaunchNotLost(run: seq<State>, steps: seq<Step>, k: nat, i: nat)
    requires IsRun(run, steps) && k < |run| && !run[k].closed
    requires i in run[k].tasks && run[k].tasks[i].Launch? && run[k].tasks[i].th in run[k].guards
    ensures !run[k].guards[run[k].tasks[i].th]
  {
    hide Apply, Enabled, IsRun;
    RunningMeansOneToken(run, steps, k);
  }

  // ----- Closing

  lemma ClosedStep(s: State, step: Step)
    requires Enabled(s, step) && s.closed
    ensures Apply(s, step).closed
  {
  }

  lemma {:induction false} StaysClosed(run: seq<State>, steps: seq<Step>, j: nat, k: nat)
    requires IsRun(run, steps) && j <= k < |run| && run[j].closed
    ensures run[k].closed
    decreases k - j
  {
    hide Apply, Enabled;
    if j < k {
      StaysClosed(run, steps, j, k - 1);
      ClosedStep(run[k - 1], steps[k - 1]);
    }
  }

  lemma ExtendRun(run: seq<State>, steps: seq<Step>, step: Step)
    requires IsRun(run, steps) && Enabled(run[|run| - 1], step)
    ensures IsRun(run + [Apply(run[|run| - 1], step)], steps + [step])
  {
    hide Apply, Enabled;
  }

  /** One record enqueued and launched, its runner outstanding. */
  lemma RunnerOut() returns (run: seq<State>, steps: seq<Step>)
    ensures IsRun(run, steps) && !run[|run| - 1].closed && !run[|run| - 1].active && run[|run| - 1].lateValues == 0
    ensures run[|run| - 1].tasks == map[10 := Runner] && run[|run| - 1].queue == [Record(7, false)]
  {
    var s0 := Init();
    var s1 := Apply(s0, DoEnqueue(Record(7, false), 1, true, 10));
    assert s1.tasks == map[10 := Launch(1)];
    var s2 := Apply(s1, DoEnterLaunch(10));
    assert s2.tasks == map[10 := Once(1)];
    var s3 := Apply(s2, DoLaunchOnce(10));
    run, steps := [s0, s1, s2, s3], [DoEnqueue(Record(7, false), 1, true, 10), DoEnterLaunch(10), DoLaunchOnce(10)];
  }

  /** Closing does not stop a turn that was already taken: its value completion may begin afterwards. */
  lemma ValueAfterClose()
    ensures exists run: seq<State>, steps: seq<Step> :: IsRun(run, steps) && run[|run| - 1].lateValues == 1
  {
    hide IsRun;
    var run, steps := RunnerOut();
    var s3 := run[|run| - 1];
    var s4 := Apply(s3, DoRunOne(10));
    assert s4.tasks == map[10 := Popped(Record(7, false))] && s4.active;
    var s5 := Apply(s4, DoShutdown(11));
    assert s5.closed && s5.tasks == s4.tasks;
    var s6 := Apply(s5, DoBeginTurn(10));
    assert s6.lateValues == 1;
    hide Apply, Enabled;
    ExtendRun(run, steps, DoRunOne(10));
    run, steps := run + [s4], steps + [DoRunOne(10)];
    ExtendRun(run, steps, DoShutdown(11));
    run, steps := run + [s5], steps + [DoShutdown(11)];
    ExtendRun(run, steps, DoBeginTurn(10));
    run, steps := run + [s6], steps + [DoBeginTurn(10)];
    assert IsRun(run, steps) && run[|run| - 1].lateValues == 1;
  }

  /** A turn with a value to deliver has been taken and its completion has not begun. */
  ghost predicate ValueTurnOut(s: State) {
    exists i :: TakenValue(s, i)
  }

  predicate TakenValue(s: State, i: nat) {
    i in s.tasks && s.tasks[i].Popped? && !s.tasks[i].record.stopOnly
  }

  lemma LateStep(s: State, step: Step)
    requires Enabled(s, step)
    ensures Apply(s, step).lateValues ==
              s.lateValues + if step.DoBeginTurn? && s.closed && TakenValue(s, step.i) then 1 else 0
  {
    match step {
      case DoEnqueue(_, _, _, _) =>
      case DoShutdown(_) =>
      case DoRunOne(_) =>
      case DoEndTurn(_, _) =>
      case DoLaunchFails(_) =>
      case _ =>
    }
  }

  /** At most one value completion of a run begins on a closed strand. */
  lemma AtMostOneLateValue(run: seq<State>, steps: seq<Step>, k: nat)
    requires IsRun(run, steps) && k < |run|
    ensures run[k].lateValues <= 1 && (!run[k].closed ==> run[k].lateValues == 0)
  {
    hide Apply, Enabled, IsRun;
    RunInv(run, steps, k);
  }

  lemma TurnStep(s: State, step: Step, i: nat)
    requires Enabled(s, step) && i in Apply(s, step).tasks && Apply(s, step).tasks[i].Popped?
    requires !(i in s.tasks && s.tasks[i].Popped?)
    ensures !s.closed && step == DoRunOne(i) && s.queue != [] && Apply(s, step).tasks[i].record == s.queue[0]
  {
    if !step.DoRunOne? { OnlyRunOnePops(s, step, i); }
  }

  lemma OnlyRunOnePops(s: State, step: Step, i: nat)
    requires Enabled(s, step) && !step.DoRunOne? && i in Apply(s, step).tasks && Apply(s, step).tasks[i].Popped?
    ensures i in s.tasks && s.tasks[i].Popped?
  {
    match step {
      case DoEnqueue(_, _, _, _) =>
      case DoShutdown(_) =>
      case DoLaunchFails(_) =>
      case DoEndTurn(_, _) =>
      case DoRefill(_) =>
      case _ =>
    }
  }

  /** No turn is taken on a closed strand: the record was popped while it was still open. */
  lemma TurnsTakenOpen(run: seq<State>, steps: seq<Step>, k: nat, i: nat)
    requires IsRun(run, steps) && k < |steps|
    requires i in run[k + 1].tasks && run[k + 1].tasks[i].Popped?
    requires !(i in run[k].tasks && run[k].tasks[i].Popped?)
    ensures !run[k].closed && run[k].queue != [] && run[k + 1].tasks[i].record == run[k].queue[0]
  {
    hide Apply, Enabled;
    TurnStep(run[k], steps[k], i);
  }

  /** Only the start of its own completion moves a taken turn. */
  lemma PoppedStays(s: State, step: Step, i: nat)
    requires Enabled(s, step) && step != DoBeginTurn(i) && i in s.tasks && s.tasks[i].Popped?
    ensures i in Apply(s, step).tasks && Apply(s, step).tasks[i] == s.tasks[i]
  {
    match step {
      case DoEnqueue(_, _, _, _) =>
      case DoShutdown(_) =>
      case DoRunOne(_) =>
      case DoEndTurn(_, _) =>
      case DoLaunchFails(_) =>
      case _ =>
    }
  }

  lemma RunOneKeepsOpen(s: State, i: nat)
    requires Enabled(s, DoRunOne(i)) && !s.closed
    ensures !Apply(s, DoRunOne(i)).closed
  {
  }

  /** On the way to a closed state no turn is taken, and none but a beginning one is given up. */
  lemma TurnsUnmoved(s: State, step: Step, i: nat)
    requires Enabled(s, step) && step != DoBeginTurn(i) && Apply(s, step).closed
    ensures TakenValue(Apply(s, step), i) <==> TakenValue(s, i)
  {
    var s' := Apply(s, step);
    if i in s.tasks && s.tasks[i].Popped? {
      PoppedStays(s, step, i);
    } else if i in s'.tasks && s'.tasks[i].Popped? {
      TurnStep(s, step, i);
      RunOneKeepsOpen(s, i);
    }
    hide Apply, Enabled;
  }

  lemma SomeTurnUnmoved(s: State, step: Step)
    requires Enabled(s, step) && !step.DoBeginTurn? && Apply(s, step).closed
    ensures ValueTurnOut(Apply(s, step)) <==> ValueTurnOut(s)
    ensures Apply(s, step).lateValues == s.lateValues
  {
    LateStep(s, step);
    hide Apply, Enabled, TakenValue;
    forall i: nat ensures TakenValue(Apply(s, step), i) <==> TakenValue(s, i) {
      TurnsUnmoved(s, step, i);
    }
  }

  /** A beginning completion turns the taken turn into a late value, or into nothing if it had none to deliver. */
  lemma BeginTrades(s: State, i: nat)
    requires Inv(s) && s.closed && Enabled(s, DoBeginTurn(i))
    ensures var s' := Apply(s, DoBeginTurn(i));
      s'.lateValues > 0 || ValueTurnOut(s') <==> s.lateValues > 0 || ValueTurnOut(s)
  {
    var s' := Apply(s, DoBeginTurn(i));
    assert forall j :: TakenValue(s, j) ==> j == i by {
      assert Working(s.tasks[i]);
      assert forall j | TakenValue(s, j) :: Working(s.tasks[j]);
    }
    assert forall j :: TakenValue(s', j) ==> TakenValue(s, j) && j != i;
    assert !s.tasks[i].record.stopOnly ==> TakenValue(s, i);
  }

  lemma LateKept(s: State, step: Step)
    requires Inv(s) && s.closed && Enabled(s, step)
    ensures var s' := Apply(s, step);
      s'.lateValues > 0 || ValueTurnOut(s') <==> s.lateValues > 0 || ValueTurnOut(s)
  {
    ClosedStep(s, step);
    hide Inv, Apply, Enabled, ValueTurnOut;
    if step.DoBeginTurn? { BeginTrades(s, step.i); } else { SomeTurnUnmoved(s, step); }
  }

  /** The step that closes the strand neither takes nor begins a turn. */
  lemma ClosingStep(s: State, step: Step)
    requires Inv(s) && !s.closed && Enabled(s, step) && Apply(s, step).closed
    ensures !step.DoBeginTurn? && s.lateValues == 0
  {
  }

  /**
    The exact condition, seen at the step that closes the strand: a value completion begins
    afterwards, or is still to begin, if and only if a turn with a value had been taken.
   */
  lemma {:induction false} LateValueExactly(run: seq<State>, steps: seq<Step>, j: nat, k: nat)
    requires IsRun(run, steps) && j < k < |run| && !run[j].closed && run[j + 1].closed
    ensures run[k].lateValues > 0 || ValueTurnOut(run[k]) <==> ValueTurnOut(run[j])
    decreases k
  {
    hide Inv, Apply, Enabled, ValueTurnOut;
    RunInv(run, steps, k - 1);
    if k == j + 1 {
      ClosingStep(run[j], steps[j]);
      SomeTurnUnmoved(run[j], steps[j]);
    } else {
      LateValueExactly(run, steps, j, k - 1);
      StaysClosed(run, steps, j + 1, k - 1);
      LateKept(run[k - 1], steps[k - 1]);
    }
  }

  /** Closing while no value turn is taken is final: no value completion begins in any later state. */
  lemma QuietCloseIsFinal(run: seq<State>, steps: seq<Step>, j: nat, k: nat)
    requires IsRun(run, steps) && j < k < |run| && !run[j].closed && run[j + 1].closed && !ValueTurnOut(run[j])
    ensures run[k].lateValues == 0
  {
    LateValueExactly(run, steps, j, k);
  }
}
