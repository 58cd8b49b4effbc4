/**
  With which signal each record completes, and what closes a strand, read off the completions
  a run has logged.
 */
module StrandLaws {
  import opened Strand
  import opened StrandProofs

  // ----- The log of enqueues

  /** The records handed to enqueue by the first `k` steps, in order. */
  function Submitted(steps: seq<Step>, k: nat): seq<Record>
    requires k <= |steps|
  {
    if k == 0 then []
    else Submitted(steps, k - 1) + if steps[k - 1].DoEnqueue? then [steps[k - 1].r] else []
  }

  lemma SubmitStep(s: State, step: Step)
    requires Enabled(s, step)
    ensures Apply(s, step).enqueued == s.enqueued + if step.DoEnqueue? then [step.r] else []
  {
    match step {
      case DoEnqueue(_, _, _, _) =>
      case DoShutdown(_) =>
      case DoRunOne(_) =>
      case DoEndTurn(_, _) =>
      case DoLaunchFails(_) =>
      case _ =>
    }
  }

  /** No enqueue is dropped, on an open strand or a closed one. */
  lemma {:induction false} EverySubmissionLogged(run: seq<State>, steps: seq<Step>, k: nat)
    requires IsRun(run, steps) && k < |run|
    ensures run[k].enqueued == Submitted(steps, k)
  {
    hide Apply, Enabled;
    if k > 0 {
      EverySubmissionLogged(run, steps, k - 1);
      SubmitStep(run[k - 1], steps[k - 1]);
    }
  }

  // ----- Completions of one step

  /** Completions begin one per step, and only in a turn or a batch. */
  lemma BegunStep(s: State, step: Step)
    requires Inv(s) && Enabled(s, step)
    ensures var s' := Apply(s, step);
      || s'.begun == s.begun
      || (step.DoBeginTurn? &&
          s'.begun == s.begun + [Event(s.tasks[step.i].record, if s.tasks[step.i].record.stopOnly then Stopped else Value)])
      || (step.DoBeginStopped? && s.closed && s.tasks[step.i].Batch? && s.tasks[step.i].rest != [] &&
          s'.begun == s.begun + [Event(s.tasks[step.i].rest[0], Stopped)])
  {
    hide OneWorker, ClosedIsDrained, Fifo, FewLateValues;
    match step {
      case DoEnqueue(_, _, _, _) =>
      case DoShutdown(_) =>
      case DoRunOne(_) =>
      case DoEndTurn(_, _) =>
      case DoLaunchFails(_) =>
      case _ =>
    }
  }

  lemma {:induction false} BegunGrows(run: seq<State>, steps: seq<Step>, j: nat, k: nat)
    requires IsRun(run, steps) && j <= k < |run|
    ensures run[j].begun <= run[k].begun
    decreases k
  {
    hide Inv, Apply, Enabled;
    if j < k {
      BegunGrows(run, steps, j, k - 1);
      RunInv(run, steps, k - 1);
      BegunStep(run[k - 1], steps[k - 1]);
    }
  }

  /** A stop-only record never completes with a value. */
  lemma {:induction false} ValueOnlyIfAllowed(run: seq<State>, steps: seq<Step>, k: nat, i: nat)
    requires IsRun(run, steps) && k < |run| && i < |run[k].begun| && run[k].begun[i].kind == Value
    ensures !run[k].begun[i].record.stopOnly
    decreases k
  {
    hide Inv, Apply, Enabled;
    if k > 0 {
      BegunGrows(run, steps, k - 1, k);
      if i < |run[k - 1].begun| {
        ValueOnlyIfAllowed(run, steps, k - 1, i);
      } else {
        RunInv(run, steps, k - 1);
        BegunStep(run[k - 1], steps[k - 1]);
      }
    }
  }

  /** On an open strand a record completes with a value if and only if it is not stop-only. */
  lemma OpenKindExactly(run: seq<State>, steps: seq<Step>, k: nat)
    requires IsRun(run, steps) && k < |steps| && !run[k].closed && run[k + 1].begun != run[k].begun
    ensures |run[k + 1].begun| == |run[k].begun| + 1 && run[k].begun <= run[k + 1].begun
    ensures var e := run[k + 1].begun[|run[k].begun|]; e.kind == Value <==> !e.record.stopOnly
  {
    hide Inv, Apply, Enabled;
    RunInv(run, steps, k);
    BegunStep(run[k], steps[k]);
  }

  // ----- Counting late values

  /** The step from run[k] begins a value completion although the strand is closed. */
  predicate LateValueAt(run: seq<State>, k: nat)
    requires k + 1 < |run|
  {
    && run[k].closed
    && |run[k].begun| < |run[k + 1].begun|
    && run[k + 1].begun[|run[k].begun|].kind == Value
  }

  /** How many of the first `k` steps did that. */
  function LateValueEvents(run: seq<State>, k: nat): nat
    requires k < |run|
  {
    if k == 0 then 0 else LateValueEvents(run, k - 1) + if LateValueAt(run, k - 1) then 1 else 0
  }

  lemma LateValueStep(s: State, step: Step)
    requires Inv(s) && Enabled(s, step)
    ensures var s' := Apply(s, step);
      s'.lateValues == s.lateValues +
        if s.closed && |s.begun| < |s'.begun| && s'.begun[|s.begun|].kind == Value then 1 else 0
  {
    LateStep(s, step);
    BegunStep(s, step);
    hide Inv;
  }

  /** The counter counts the value completions in the log that began on a closed strand. */
  lemma {:induction false} LateValuesCounted(run: seq<State>, steps: seq<Step>, k: nat)
    requires IsRun(run, steps) && k < |run|
    ensures run[k].lateValues == LateValueEvents(run, k)
  {
    hide Inv, Apply, Enabled;
    if k > 0 {
      LateValuesCounted(run, steps, k - 1);
      RunInv(run, steps, k - 1);
      LateValueStep(run[k - 1], steps[k - 1]);
    }
  }

  // ----- What closing means for the records

  /** What closes a strand: shutdown, a launch that fails, or a queue that cannot grow. */
  predicate Closes(step: Step) {
    step.DoShutdown? || step.DoLaunchFails? || (step.DoEnqueue? && !step.grows)
  }

  lemma CloseStep(s: State, step: Step)
    requires Enabled(s, step)
    ensures Apply(s, step).closed <==> s.closed || Closes(step)
  {
    match step {
      case DoEnqueue(_, _, _, _) =>
      case DoShutdown(_) =>
      case DoRunOne(_) =>
      case DoEndTurn(_, _) =>
      case DoLaunchFails(_) =>
      case _ =>
    }
  }

  lemma {:induction false} ClosedExactly(run: seq<State>, steps: seq<Step>, k: nat)
    requires IsRun(run, steps) && k < |run|
    ensures run[k].closed <==> exists j :: 0 <= j < k && Closes(steps[j])
  {
    hide Apply, Enabled, Closes;
    if k > 0 {
      ClosedExactly(run, steps, k - 1);
      CloseStep(run[k - 1], steps[k - 1]);
    }
  }

  /** Nobody holds a turn whose completion has not begun. */
  ghost predicate NoTurn(s: State) {
    forall i | i in s.tasks :: !s.tasks[i].Popped?
  }

  lemma NoTurnStays(s: State, step: Step)
    requires Enabled(s, step) && s.closed && NoTurn(s)
    ensures NoTurn(Apply(s, step))
  {
    var s' := Apply(s, step);
    forall i | i in s'.tasks ensures !s'.tasks[i].Popped? {
      if s'.tasks[i].Popped? { TurnStep(s, step, i); }
    }
  }

  /** A completion that begins leaves no turn waiting to begin, and is a value exactly if one was. */
  lemma BeginUsesTurn(s: State, step: Step)
    requires Inv(s) && Enabled(s, step) && Apply(s, step).begun != s.begun
    ensures NoTurn(Apply(s, step)) && |Apply(s, step).begun| == |s.begun| + 1
    ensures Apply(s, step).begun[|s.begun|].kind == Value <==> ValueTurnOut(s)
  {
    BegunStep(s, step);
    var s' := Apply(s, step);
    var w := step.i;
    assert OneWorker(s) && Working(s.tasks[w]);
    assert forall i | i in s.tasks && s.tasks[i].Popped? :: Working(s.tasks[i]) && i == w;
    assert forall i | i in s'.tasks && i != w :: i in s.tasks && s'.tasks[i] == s.tasks[i];
    assert ValueTurnOut(s) <==> TakenValue(s, w);
  }

  /** The log from run[j] on: nothing new yet, or a value first exactly if one was out, and stopped from there. */
  ghost predicate AfterClosing(a: State, b: State) {
    || (b.begun == a.begun && (ValueTurnOut(b) <==> ValueTurnOut(a)))
    || (&& |a.begun| < |b.begun| && NoTurn(b)
        && (b.begun[|a.begun|].kind == Value <==> ValueTurnOut(a))
        && forall i | |a.begun| < i < |b.begun| :: b.begun[i].kind == Stopped)
  }

  lemma AfterClosingStep(a: State, s: State, step: Step)
    requires Inv(s) && Enabled(s, step) && s.closed && AfterClosing(a, s)
    ensures AfterClosing(a, Apply(s, step))
  {
    ClosedStep(s, step);
    BegunStep(s, step);
    hide Inv, Apply, Enabled, ValueTurnOut;
    var s' := Apply(s, step);
    if s'.begun == s.begun {
      if step.DoBeginTurn? { BeginLogs(s, step); }
      SomeTurnUnmoved(s, step);
      if NoTurn(s) { NoTurnStays(s, step); }
    } else {
      BeginUsesTurn(s, step);
      if NoTurn(s) { NoValueOut(s); }
    }
  }

  lemma NoValueOut(s: State)
    requires NoTurn(s)
    ensures !ValueTurnOut(s)
  {
  }

  lemma BeginLogs(s: State, step: Step)
    requires Enabled(s, step) && step.DoBeginTurn?
    ensures Apply(s, step).begun != s.begun
  {
  }

  lemma {:induction false} AfterClosingRun(run: seq<State>, steps: seq<Step>, j: nat, k: nat)
    requires IsRun(run, steps) && j <= k < |run| && run[j].closed
    ensures AfterClosing(run[j], run[k])
    decreases k
  {
    hide Inv, Apply, Enabled, AfterClosing;
    if j == k {
      assert AfterClosing(run[j], run[j]) by { FreshClose(run[j]); }
    } else {
      AfterClosingRun(run, steps, j, k - 1);
      StaysClosed(run, steps, j, k - 1);
      RunInv(run, steps, k - 1);
      AfterClosingStep(run[j], run[k - 1], steps[k - 1]);
    }
  }

  lemma FreshClose(s: State)
    ensures AfterClosing(s, s)
  {
  }

  /**
    On a closed strand the completions still to begin are all stopped, except the very next
    one if it belongs to a value turn that was already taken.
   */
  lemma KindAfterClosing(run: seq<State>, steps: seq<Step>, j: nat, k: nat, i: nat)
    requires IsRun(run, steps) && j <= k < |run| && run[j].closed && |run[j].begun| <= i < |run[k].begun|
    ensures run[k].begun[i].kind == Value <==> i == |run[j].begun| && ValueTurnOut(run[j])
  {
    hide Inv, Apply, Enabled, ValueTurnOut, IsRun;
    AfterClosingRun(run, steps, j, k);
  }

  lemma TurnIsEnqueued(s: State)
    requires Inv(s) && ValueTurnOut(s)
    ensures |s.begun| < |s.enqueued|
  {
    var i :| TakenValue(s, i);
    assert Working(s.tasks[i]);
  }

  /** A record enqueued on a closed strand completes with stopped. */
  lemma EnqueuedTooLate(run: seq<State>, steps: seq<Step>, j: nat, k: nat, i: nat)
    requires IsRun(run, steps) && j <= k < |run| && run[j].closed && |run[j].enqueued| <= i < |run[k].begun|
    ensures run[k].begun[i].kind == Stopped
  {
    hide Apply, Enabled, ValueTurnOut, IsRun;
    SerialInOrder(run, steps, j);
    RunInv(run, steps, j);
    if ValueTurnOut(run[j]) { TurnIsEnqueued(run[j]); }
    KindAfterClosing(run, steps, j, k, i);
  }

  // ----- Launching

  /** A thread makes launch calls only inside its launch loop, one at a time. */
  ghost predicate Trampolined(s: State) {
    && (forall i | i in s.tasks && s.tasks[i].Once? :: s.tasks[i].th in s.guards)
    && (forall i, j | i in s.tasks && j in s.tasks && s.tasks[i].Once? && s.tasks[i] == s.tasks[j] :: i == j)
  }

  lemma EnterTrampolined(s: State, i: nat)
    requires i in s.tasks && s.tasks[i].Launch? && Trampolined(s)
    ensures Trampolined(EnterLaunch(s, i))
  {
  }

  lemma LoopEndTrampolined(s: State, th: Thread, n: nat)
    requires Enabled(s, DoLaunchLoopEnd(th, n)) && Trampolined(s)
    ensures Trampolined(LaunchLoopEnd(s, th, n))
  {
  }

  /** No other step starts a launch call or touches a flag. */
  lemma NoNewCall(s: State, step: Step, i: nat)
    requires Enabled(s, step) && !step.DoEnterLaunch? && !step.DoLaunchLoopEnd?
    ensures Apply(s, step).guards == s.guards
    ensures i in Apply(s, step).tasks && Apply(s, step).tasks[i].Once? ==> i in s.tasks && s.tasks[i] == Apply(s, step).tasks[i]
  {
    match step {
      case DoEnqueue(_, _, _, _) =>
      case DoShutdown(_) =>
      case DoRunOne(_) =>
      case DoEndTurn(_, _) =>
      case DoLaunchFails(_) =>
      case DoRefill(_) =>
      case _ =>
    }
  }

  lemma TrampolineStep(s: State, step: Step)
    requires Enabled(s, step) && Trampolined(s)
    ensures Trampolined(Apply(s, step))
  {
    if step.DoEnterLaunch? {
      EnterTrampolined(s, step.i);
    } else if step.DoLaunchLoopEnd? {
      LoopEndTrampolined(s, step.th, step.n);
    } else {
      hide Apply, Enabled;
      forall i: nat ensures Apply(s, step).guards == s.guards
        && (i in Apply(s, step).tasks && Apply(s, step).tasks[i].Once? ==> i in s.tasks && s.tasks[i] == Apply(s, step).tasks[i])
      {
        NoNewCall(s, step, i);
      }
    }
  }

  /** Launching never nests: of any thread at most one launch call is under way, inside its loop. */
  lemma {:induction false} NoNestedLaunch(run: seq<State>, steps: seq<Step>, k: nat)
    requires IsRun(run, steps) && k < |run|
    ensures Trampolined(run[k])
  {
    hide Apply, Enabled, Trampolined;
    if k == 0 {
      FreshTrampolined();
    } else {
      NoNestedLaunch(run, steps, k - 1);
      TrampolineStep(run[k - 1], steps[k - 1]);
    }
  }

  lemma FreshTrampolined()
    ensures Trampolined(Init())
  {
  }

  /**
    A launch from within the thread's own loop only raises the flag; otherwise the thread enters
    its loop and calls.  At the bottom of the loop a raised flag is lowered for one more call, and
    without one the thread leaves.  A launch that failed is over.
   */
  lemma LaunchOutcome(run: seq<State>, steps: seq<Step>, k: nat)
    requires IsRun(run, steps) && k < |steps|
    ensures steps[k].DoEnterLaunch? ==>
      && steps[k].i in run[k].tasks && run[k].tasks[steps[k].i].Launch?
      && var th := run[k].tasks[steps[k].i].th;
         && th in run[k + 1].guards && (run[k + 1].guards[th] <==> th in run[k].guards)
         && if th in run[k].guards then steps[k].i !in run[k + 1].tasks
            else steps[k].i in run[k + 1].tasks && run[k + 1].tasks[steps[k].i] == Once(th)
    ensures steps[k].DoLaunchLoopEnd? ==>
      && steps[k].th in run[k].guards
      && if run[k].guards[steps[k].th] then
           && steps[k].th in run[k + 1].guards && !run[k + 1].guards[steps[k].th]
           && steps[k].n in run[k + 1].tasks && run[k + 1].tasks[steps[k].n] == Once(steps[k].th)
         else steps[k].th !in run[k + 1].guards
    ensures steps[k].DoLaunchFails? ==>
      run[k + 1].closed && (steps[k].i in run[k + 1].tasks ==> run[k + 1].tasks[steps[k].i].Batch?)
  {
    assert Enabled(run[k], steps[k]) && run[k + 1] == Apply(run[k], steps[k]);
    hide IsRun;
  }
}
