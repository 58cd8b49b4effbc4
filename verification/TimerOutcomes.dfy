/**
  Which item the worker takes and with which signal each receiver is invoked, over every run
  and without reference to the functions that choose.
 */
module TimerOutcomes {
  import opened Timer
  import opened TimerProofs
  import opened TimerLaws

  // ----- Flags and shutdown

  lemma StopStep(s: State, step: Step)
    requires Sound(s) && Enabled(s, step)
    ensures Apply(s, step).stop <==> s.stop || step.DoShutdown?
  {
    hide Pick, RemoveAt, Position, Known, MayDestroy, WorkerFree;
  }

  /** The context is stopped if and only if shutdown was called. */
  lemma {:induction false} StopExactly(run: seq<State>, steps: seq<Step>, k: nat)
    requires IsRun(run, steps) && k < |run|
    ensures run[k].stop <==> exists j :: 0 <= j < k && steps[j].DoShutdown?
  {
    hide Sound, Apply, Enabled;
    if k > 0 {
      StopExactly(run, steps, k - 1);
      StopStep(run[k - 1], steps[k - 1]);
    }
  }

  /** The stop flag of `id`'s item is up. */
  predicate Flagged(s: State, id: nat) { id in s.ops && s.ops[id].flagged }

  lemma FlagStep(s: State, step: Step, id: nat)
    requires Sound(s) && Enabled(s, step)
    ensures Flagged(Apply(s, step), id) <==> Flagged(s, id) || step == DoFlag(id)
  {
    hide Pick, RemoveAt, Position, Known, WorkerFree;
    if step.DoDeliver? { DeliveryKeepsFlags(s, id); }
    if step.DoInlineStep? { InlineKeepsFlags(s, step.id, id); }
    hide Deliver, InlineStep;
  }

  lemma DeliveryKeepsFlags(s: State, id: nat)
    requires s.worker.Delivering? && s.worker.id in s.ops
    ensures Flagged(Deliver(s), id) <==> Flagged(s, id)
  {
  }

  lemma InlineKeepsFlags(s: State, x: nat, id: nat)
    requires x in s.ops && s.ops[x].start.Inline?
    ensures Flagged(InlineStep(s, x), id) <==> Flagged(s, id)
  {
  }

  /** A flag is up if and only if a stop was requested for that item. */
  lemma {:induction false} FlaggedExactly(run: seq<State>, steps: seq<Step>, k: nat, id: nat)
    requires IsRun(run, steps) && k < |run|
    ensures Flagged(run[k], id) <==> exists j :: 0 <= j < k && steps[j] == DoFlag(id)
  {
    hide Sound, Apply, Enabled, Flagged;
    if k == 0 {
      NoFlags(run[0].now, id);
    } else {
      FlaggedExactly(run, steps, k - 1, id);
      FlagStep(run[k - 1], steps[k - 1], id);
    }
  }

  lemma NoFlags(now: int, id: nat)
    ensures !Flagged(Init(now), id)
  {
  }

  // ----- Starting

  /** enqueue accepts an item exactly until shutdown; afterwards start completes inline. */
  lemma AcceptsExactly(run: seq<State>, steps: seq<Step>, k: nat)
    requires IsRun(run, steps) && k < |steps| && steps[k].DoStartEnqueue?
    ensures steps[k].id in run[k + 1].ops
    ensures var id := steps[k].id;
      if exists j :: 0 <= j < k && steps[j].DoShutdown?
      then run[k + 1].ops[id].start == Inline(steps[k].th, ToPublish) && run[k + 1].items == run[k].items
      else run[k + 1].ops[id].start.Handed? && run[k + 1].items == run[k].items + [id]
           && run[k + 1].pending == run[k].pending + 1
  {
    StopExactly(run, steps, k);
  }

  // ----- What the worker takes

  /** `p` is the first queued item with its flag up. */
  predicate FirstFlaggedAt(s: State, p: nat) {
    p < |s.items| && Flagged(s, s.items[p]) && forall j | 0 <= j < p :: !Flagged(s, s.items[j])
  }

  predicate AnyFlagged(s: State) { exists j | 0 <= j < |s.items| :: Flagged(s, s.items[j]) }

  predicate Due(s: State, id: nat) { id in s.ops && s.ops[id].deadline <= s.now }

  predicate AnyDue(s: State) { exists j | 0 <= j < |s.items| :: Due(s, s.items[j]) }

  /** `p` is due, no queued item is due earlier and none before it in the list as early. */
  predicate FirstDueAt(s: State, p: nat) {
    && p < |s.items| && Due(s, s.items[p])
    && (forall j | 0 <= j < |s.items| :: s.items[j] in s.ops && s.ops[s.items[p]].deadline <= s.ops[s.items[j]].deadline)
    && (forall j | 0 <= j < p :: s.items[j] in s.ops && s.ops[s.items[p]].deadline < s.ops[s.items[j]].deadline)
  }

  /** The worker takes the item at `p`, to be completed as told, and changes nothing else. */
  predicate Takes(s: State, s': State, p: nat, asStopped: bool) {
    && p < |s.items|
    && s' == s.(items := s.items[..p] + s.items[p + 1..], worker := Delivering(s.items[p], asStopped, ToPublish))
  }

  /**
    One look of the worker: after shutdown the last item is stopped, or with none left the
    worker exits; otherwise the first flagged item is stopped; otherwise the earliest due item
    is delivered; otherwise nothing happens.
   */
  lemma LookOutcome(s: State) returns (p: nat)
    requires Sound(s)
    ensures var s' := Take(s);
      if s.stop then
        if s.items == [] then s' == s.(worker := Exited) else Takes(s, s', |s.items| - 1, true)
      else if AnyFlagged(s) then FirstFlaggedAt(s, p) && Takes(s, s', p, true)
      else if AnyDue(s) then FirstDueAt(s, p) && Takes(s, s', p, false)
      else s' == s
  {
    assert forall j | 0 <= j < |s.items| :: s.items[j] in s.items;
    p := 0;
    if s.stop {
      if s.items != [] { assert RemoveAt(s.items, |s.items| - 1) == s.items[..|s.items| - 1] + s.items[|s.items|..]; }
    } else if s.items != [] {
      var f := FirstFlagged(s.ops, s.items);
      if f < |s.items| {
        assert Flagged(s, s.items[f]);
        p := f;
      } else {
        p := Earliest(s.ops, s.items);
        assert !AnyFlagged(s);
        assert AnyDue(s) ==> Due(s, s.items[p]);
        assert Due(s, s.items[p]) ==> AnyDue(s);
      }
    }
  }

  /** The worker waits without a deadline when nothing is queued, and with one when nothing is flagged or due. */
  lemma WaitsExactly(s: State)
    requires Sound(s)
    ensures Pick(s).Exit? <==> s.stop && s.items == []
    ensures Pick(s).Idle? <==> !s.stop && s.items == []
    ensures Pick(s).Sleep? <==> !s.stop && s.items != [] && !AnyFlagged(s) && !AnyDue(s)
  {
    var p := LookOutcome(s);
  }

  lemma TakeOutcome(run: seq<State>, steps: seq<Step>, k: nat) returns (p: nat)
    requires IsRun(run, steps) && k < |steps| && steps[k].DoTake?
    ensures var s := run[k]; var s' := run[k + 1];
      if s.stop then
        if s.items == [] then s' == s.(worker := Exited) else Takes(s, s', |s.items| - 1, true)
      else if AnyFlagged(s) then FirstFlaggedAt(s, p) && Takes(s, s', p, true)
      else if AnyDue(s) then FirstDueAt(s, p) && Takes(s, s', p, false)
      else s' == s
  {
    p := LookOutcome(run[k]);
    assert run[k + 1] == Take(run[k]);
  }

  /** An item taken to be stopped was taken because of a shutdown, or is the first flagged one. */
  lemma StoppedTakeHasReason(run: seq<State>, steps: seq<Step>, k: nat)
    requires IsRun(run, steps) && k < |steps| && steps[k].DoTake?
    requires run[k + 1].worker.Delivering? && run[k + 1].worker.asStopped
    ensures run[k].stop || exists p :: FirstFlaggedAt(run[k], p) && Takes(run[k], run[k + 1], p, true)
  {
    var p := TakeOutcome(run, steps, k);
    assert run[k].worker.Looking?;
  }

  // ----- With which signal receivers are invoked

  /** A stop was requested for the item, or the context was shut down. */
  predicate MayStop(s: State, id: nat) { s.stop || Flagged(s, id) }

  lemma MayStopStays(s: State, step: Step, id: nat)
    requires Sound(s) && Enabled(s, step) && MayStop(s, id)
    ensures MayStop(Apply(s, step), id)
  {
    StopStep(s, step);
    FlagStep(s, step, id);
  }

  /** Whatever the worker is stopping may be stopped. */
  predicate StopsRightly(s: State) {
    s.worker.Delivering? && s.worker.asStopped ==> MayStop(s, s.worker.id)
  }

  /** A delivery keeps its item and its signal to the end. */
  lemma WorkerStep(s: State, step: Step)
    requires Sound(s) && Enabled(s, step) && Apply(s, step).worker.Delivering?
    ensures step.DoTake? || (s.worker.Delivering? && s.worker.id == Apply(s, step).worker.id
                             && s.worker.asStopped == Apply(s, step).worker.asStopped)
  {
    hide Pick, RemoveAt, Position, Known, MayDestroy, WorkerFree;
  }

  lemma {:induction false} StopsRightlyAlways(run: seq<State>, steps: seq<Step>, k: nat)
    requires IsRun(run, steps) && k < |run|
    ensures StopsRightly(run[k])
  {
    hide Sound, Apply, Enabled, MayStop;
    if k > 0 && run[k].worker.Delivering? && run[k].worker.asStopped {
      var s, step := run[k - 1], steps[k - 1];
      StopsRightlyAlways(run, steps, k - 1);
      WorkerStep(s, step);
      if step.DoTake? {
        StoppedTakeHasReason(run, steps, k - 1);
        TakenMayStop(s, run[k]);
      }
      MayStopStays(s, step, run[k].worker.id);
    }
  }

  lemma TakenMayStop(s: State, s': State)
    requires s.stop || exists p :: FirstFlaggedAt(s, p) && Takes(s, s', p, true)
    requires s'.worker.Delivering?
    ensures MayStop(s, s'.worker.id)
  {
  }

  /** What a step adds to the log of invocations. */
  lemma CallStep(s: State, step: Step)
    requires Sound(s) && Enabled(s, step)
    ensures var s' := Apply(s, step);
      || s'.calls == s.calls
      || (step.DoDeliver? && s'.calls == s.calls + [Call(s.worker.id, s.worker.asStopped)])
      || (step.DoInlineStep? && s'.calls == s.calls + [Call(step.id, true)])
  {
    hide Pick, RemoveAt, Position, Known, MayDestroy, WorkerFree;
  }

  /**
    A receiver invoked with stopped although its item had been accepted has a stop request for
    it or a shutdown before it in the run; one invoked with a value has had its item accepted.
   */
  lemma CallHasReason(run: seq<State>, steps: seq<Step>, k: nat)
    requires IsRun(run, steps) && k < |steps| && run[k + 1].calls != run[k].calls
    ensures |run[k + 1].calls| == |run[k].calls| + 1 && run[k].calls <= run[k + 1].calls
    ensures var c := run[k + 1].calls[|run[k].calls|];
      && c.id in run[k].ops
      && (c.asStopped && run[k].ops[c.id].start.Handed? ==>
            exists j :: 0 <= j < k && (steps[j] == DoFlag(c.id) || steps[j].DoShutdown?))
      && (!c.asStopped ==> run[k].ops[c.id].start.Handed?)
  {
    hide Sound, Apply, Inv;
    CallStep(run[k], steps[k]);
    RunInv(run, steps, k);
    var c := run[k + 1].calls[|run[k].calls|];
    if steps[k].DoDeliver? { HeldIsHanded(run[k]); }
    if c.asStopped && steps[k].DoDeliver? {
      StopsRightlyAlways(run, steps, k);
      StopExactly(run, steps, k);
      FlaggedExactly(run, steps, k, c.id);
    }
  }

  lemma HeldIsHanded(s: State)
    requires Inv(s) && s.worker.Delivering?
    ensures s.worker.id in s.ops && s.ops[s.worker.id].start.Handed?
  {
  }

  /** The worker has `id` in hand, or has delivered it; either way with signal `b`. */
  ghost predicate Signalled(s: State, id: nat, b: bool) {
    && id in s.ops && s.ops[id].start.Handed?
    && (s.ops[id].delivered || (Holds(s.worker, id) && s.worker.asStopped == b))
    && forall i | 0 <= i < |s.calls| && s.calls[i].id == id :: s.calls[i].asStopped == b
  }

  lemma TakenUncalled(s: State, p: nat, b: bool)
    requires Inv(s) && p < |s.items|
    ensures Signalled(s.(items := s.items[..p] + s.items[p + 1..], worker := Delivering(s.items[p], b, ToPublish)), s.items[p], b)
  {
    assert s.items[p] in s.items;
    OpFacts(s, s.items[p]);
    hide OpOk, LifeOk, Placed;
    assert !s.ops[s.items[p]].winner.Completer?;
  }

  lemma SignalledStep(s: State, step: Step, id: nat, b: bool)
    requires Inv(s) && Sound(s) && Enabled(s, step) && Signalled(s, id, b)
    ensures Signalled(Apply(s, step), id, b)
  {
    CallStep(s, step);
    if s.ops[id].delivered {
      OpFacts(s, id);
      assert Settled(s, id);
      SettledStays(s, step, id);
    } else {
      HeldStep(s, step, id, b);
    }
    hide Inv, Apply, Enabled, Sound;
  }

  lemma HeldStep(s: State, step: Step, id: nat, b: bool)
    requires Inv(s) && Sound(s) && Enabled(s, step) && Signalled(s, id, b) && !s.ops[id].delivered
    ensures Signalled(Apply(s, step), id, b)
  {
    if step.DoDeliver? {
      HeldDelivers(s, id, b);
    } else if step.DoInlineStep? {
      HeldAside(s, step.id, id, b);
    } else {
      CallStep(s, step);
      hide Pick, RemoveAt, Position, Known, WorkerFree, Inv, Deliver, InlineStep, Take, Decrement;
    }
  }

  lemma HeldDelivers(s: State, id: nat, b: bool)
    requires s.worker.Delivering? && s.worker.id in s.ops && Signalled(s, id, b) && !s.ops[id].delivered
    ensures Signalled(Deliver(s), id, b)
  {
  }

  lemma HeldAside(s: State, x: nat, id: nat, b: bool)
    requires x in s.ops && s.ops[x].start.Inline? && Signalled(s, id, b) && !s.ops[id].delivered
    ensures Signalled(InlineStep(s, x), id, b)
  {
  }

  /** The signal is fixed when the worker takes the item: later flags do not change it. */
  lemma {:induction false} SignalFixedAtTake(run: seq<State>, steps: seq<Step>, j: nat, k: nat, i: nat)
    requires IsRun(run, steps) && j < k < |run| && steps[j].DoTake? && run[j + 1].worker.Delivering?
    requires i < |run[k].calls| && run[k].calls[i].id == run[j + 1].worker.id
    ensures run[k].calls[i].asStopped == run[j + 1].worker.asStopped
  {
    SignalledRun(run, steps, j, k);
  }

  lemma {:induction false} SignalledRun(run: seq<State>, steps: seq<Step>, j: nat, k: nat)
    requires IsRun(run, steps) && j < k < |run| && steps[j].DoTake? && run[j + 1].worker.Delivering?
    ensures Signalled(run[k], run[j + 1].worker.id, run[j + 1].worker.asStopped)
    decreases k
  {
    hide Inv, Sound, Apply, Signalled;
    RunInv(run, steps, k - 1);
    if k == j + 1 {
      var p := TakeOutcome(run, steps, j);
      if run[j].stop { p := |run[j].items| - 1; }
      TakenUncalled(run[j], p, run[k].worker.asStopped);
    } else {
      SignalledRun(run, steps, j, k - 1);
      SignalledStep(run[k - 1], steps[k - 1], run[j + 1].worker.id, run[j + 1].worker.asStopped);
    }
  }

  // ----- Destructors

  /** How far the destructor of `id` is after step `k` of a run. */
  ghost predicate Destructor(s: State, s': State, id: nat, life: Life) {
    id in s.ops && id in s'.ops && s'.ops[id].life == life
  }

  /**
    A destructor returns at once without an item or when its own thread is the completing one,
    claims the operation if nobody has, and else waits.  One that claimed takes its item out of
    the queue if it is there, and returns, or waits for the worker.
   */
  lemma DestructorOutcome(run: seq<State>, steps: seq<Step>, k: nat)
    requires IsRun(run, steps) && k < |steps|
    ensures steps[k].DoDestroy? ==>
      && var s, id, th := run[k], steps[k].id, steps[k].th;
         && id in s.ops
         && Destructor(s, run[k + 1], id,
              if !s.ops[id].hasItem then Gone(th)
              else if s.ops[id].winner.Nobody? then Claimed(th)
              else if s.ops[id].publisher == Some(th) then Gone(th)
              else Waiting(th))
    ensures steps[k].DoDiscard? ==>
      && var s, id := run[k], steps[k].id;
         && id in s.ops && s.ops[id].life.Claimed?
         && Destructor(s, run[k + 1], id, if id in s.items then Gone(s.ops[id].life.th) else Waiting(s.ops[id].life.th))
         && (id in run[k + 1].ops && run[k + 1].ops[id].discarded <==> id in s.items || s.ops[id].discarded)
         && (forall x :: x in run[k + 1].items <==> x in s.items && x != id)
  {
    RunInv(run, steps, k);
    var s, step := run[k], steps[k];
    assert Enabled(s, step) && Sound(s) && run[k + 1] == Apply(s, step);
    if step.DoDiscard? && step.id in s.items {
      hide Ops, CallsOk;
      RemoveAtIs(s.items, Position(s.items, step.id));
    }
    hide IsRun, Ops, CallsOk, RemoveAt, WorkerFree;
  }
}
