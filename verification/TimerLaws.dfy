/**
  What the timer context promises over every run.
 */
module TimerLaws {
  import opened Timer
  import opened TimerProofs

  // ----- Destruction

  /** What one step does once a destructor has returned: the operation stays destroyed and is not called. */
  ghost predicate LeftAlone(s: State, s': State, id: nat)
    requires id in s.ops
  {
    && id in s'.ops && s'.ops[id].life == s.ops[id].life
    && (s'.calls == s.calls || exists c :: s'.calls == s.calls + [c] && c.id != id)
  }

  lemma InlineAfterGone(s: State, x: nat, id: nat)
    requires x in s.ops && s.ops[x].start.Inline? && id in s.ops && s.ops[id].life.Gone?
    requires s.ops[id].start.NotStarted? || Done(s.ops[id])
    ensures LeftAlone(s, InlineStep(s, x), id)
  {
    var s' := InlineStep(s, x);
    var c := Call(x, true);
    assert s'.calls == s.calls || s'.calls == s.calls + [c];
  }

  lemma DeliverAfterGone(s: State, id: nat)
    requires s.worker.Delivering? && s.worker.id in s.ops && id in s.ops && s.ops[id].life.Gone?
    requires s.worker.id == id ==> Done(s.ops[id])
    ensures LeftAlone(s, Deliver(s), id)
  {
    var s' := Deliver(s);
    var c := Call(s.worker.id, s.worker.asStopped);
    assert s'.calls == s.calls || s'.calls == s.calls + [c];
  }

  lemma OtherAfterGone(s: State, step: Step, id: nat)
    requires Sound(s) && Enabled(s, step) && id in s.ops && s.ops[id].life.Gone?
    requires !step.DoInlineStep? && !step.DoDeliver?
    ensures LeftAlone(s, Apply(s, step), id)
  {
    hide Pick, RemoveAt, Position;
  }

  lemma StepAfterGone(s: State, step: Step, id: nat)
    requires Inv(s) && Sound(s) && Enabled(s, step) && id in s.ops && s.ops[id].life.Gone?
    ensures LeftAlone(s, Apply(s, step), id)
  {
    OpFacts(s, id);
    hide Ops, CallsOk, LeftAlone;
    if step.DoInlineStep? { InlineAfterGone(s, step.id, id); }
    else if step.DoDeliver? { DeliverAfterGone(s, id); }
    else { OtherAfterGone(s, step, id); }
  }

  /** After the destructor of an operation returns, no later step of anybody invokes its receiver. */
  lemma {:induction false} NoCallAfterDestroy(run: seq<State>, steps: seq<Step>, k: nat, l: nat, id: nat)
    requires IsRun(run, steps) && k <= l < |run| && id in run[k].ops && run[k].ops[id].life.Gone?
    ensures id in run[l].ops && run[l].ops[id].life == run[k].ops[id].life
    ensures run[k].calls <= run[l].calls
    ensures forall j | |run[k].calls| <= j < |run[l].calls| :: run[l].calls[j].id != id
    decreases l
  {
    hide Inv, Sound, Enabled, Apply;
    if k < l {
      NoCallAfterDestroy(run, steps, k, l - 1, id);
      RunInv(run, steps, l - 1);
      StepAfterGone(run[l - 1], steps[l - 1], id);
    }
  }

  /**
    A destructor that returned leaves the item delivered or discarded and no completion attempt
    behind, unless it was called by the very completion it would have had to wait for.
   */
  lemma GoneMeansSettled(run: seq<State>, steps: seq<Step>, k: nat, id: nat)
    requires IsRun(run, steps) && k < |run| && id in run[k].ops && run[k].ops[id].life.Gone? && run[k].ops[id].hasItem
    ensures var s := run[k]; var op := s.ops[id];
      && id !in s.items
      && if op.delivered || op.discarded then AttemptOn(op, id, s.worker).NoAttempt?
         else Within(AttemptOn(op, id, s.worker), op.life.th)
  {
    RunInv(run, steps, k);
    OpFacts(run[k], id);
  }

  /** A waiting destructor waits for a delivery that another thread is making. */
  lemma NeverWaitsForItself(run: seq<State>, steps: seq<Step>, k: nat, id: nat)
    requires IsRun(run, steps) && k < |run| && id in run[k].ops
    requires run[k].ops[id].life.Waiting? && !run[k].ops[id].delivered
    ensures var a := AttemptOn(run[k].ops[id], id, run[k].worker); a.Attempt? && a.th != run[k].ops[id].life.th
  {
    RunInv(run, steps, k);
    OpFacts(run[k], id);
  }

  /** An operation abandoned before its completion claimed it is never completed. */
  lemma AbandonedNeverCalled(run: seq<State>, steps: seq<Step>, k: nat, id: nat)
    requires IsRun(run, steps) && k < |run| && id in run[k].ops && run[k].ops[id].winner.Destructor?
    ensures forall j | 0 <= j < |run[k].calls| :: run[k].calls[j].id != id
  {
    RunInv(run, steps, k);
  }

  // ----- Accounting

  datatype Fate = Queued | Held | Delivered | Discarded

  ghost predicate Has(s: State, id: nat, fate: Fate)
    requires id in s.ops
  {
    match fate
    case Queued => id in s.items
    case Held => Holds(s.worker, id)
    case Delivered => s.ops[id].delivered
    case Discarded => s.ops[id].discarded
  }

  /** Every accepted item is exactly one of queued, held by the worker, delivered or discarded. */
  lemma OneFate(run: seq<State>, steps: seq<Step>, k: nat, id: nat) returns (fate: Fate)
    requires IsRun(run, steps) && k < |run| && id in run[k].ops && run[k].ops[id].start.Handed?
    ensures Has(run[k], id, fate)
    ensures forall other | Has(run[k], id, other) :: other == fate
  {
    RunInv(run, steps, k);
    OpFacts(run[k], id);
    fate := if id in run[k].items then Queued else if Holds(run[k].worker, id) then Held
            else if run[k].ops[id].delivered then Delivered else Discarded;
  }

  /** The worker marks item `id` as delivered. */
  predicate Marks(s: State, step: Step, id: nat) {
    step.DoDeliver? && s.worker.Delivering? && s.worker.id == id && s.worker.stage.ToFinish?
  }

  lemma MarksOnce(s: State, step: Step, id: nat)
    requires Inv(s) && Sound(s) && Enabled(s, step) && Marks(s, step, id)
    ensures id in s.ops && !s.ops[id].delivered && !s.ops[id].discarded && s.ops[id].start.Handed?
    ensures id in Apply(s, step).ops && Settled(Apply(s, step), id)
  {
    OpFacts(s, id);
    hide Ops, CallsOk;
  }

  /** An accepted item that has been delivered. */
  predicate Settled(s: State, id: nat)
    requires id in s.ops
  {
    s.ops[id].delivered && s.ops[id].start.Handed?
  }

  lemma SettledStays(s: State, step: Step, id: nat)
    requires Sound(s) && Enabled(s, step) && id in s.ops && Settled(s, id)
    ensures id in Apply(s, step).ops && Settled(Apply(s, step), id)
  {
    hide Pick, RemoveAt, Position, MayDestroy, WorkerFree, Known;
    if step.DoDeliver? {
      assert Settled(Deliver(s), id);
    } else if step.DoInlineStep? {
      assert Settled(InlineStep(s, step.id), id);
    } else {
      hide Deliver, InlineStep;
    }
  }

  /** A delivered item stays delivered in every later state. */
  lemma {:induction false} DeliveredStays(run: seq<State>, steps: seq<Step>, k: nat, l: nat, id: nat)
    requires IsRun(run, steps) && k <= l < |run| && id in run[k].ops && Settled(run[k], id)
    ensures id in run[l].ops && Settled(run[l], id)
    decreases l
  {
    hide Sound, Apply, Enabled;
    if k < l {
      DeliveredStays(run, steps, k, l - 1, id);
      SettledStays(run[l - 1], steps[l - 1], id);
    }
  }

  /** In a whole run the worker delivers an item at most once. */
  lemma DeliveredOnce(run: seq<State>, steps: seq<Step>, k: nat, l: nat, id: nat)
    requires IsRun(run, steps) && k < l < |steps| && Marks(run[k], steps[k], id)
    ensures !Marks(run[l], steps[l], id)
  {
    RunInv(run, steps, k);
    RunInv(run, steps, l);
    hide Inv, Sound, Apply, Enabled, Marks;
    MarksOnce(run[k], steps[k], id);
    DeliveredStays(run, steps, k + 1, l, id);
    if Marks(run[l], steps[l], id) { MarksOnce(run[l], steps[l], id); }
  }

  /** The receiver of a delivered item was invoked, unless its operation was destroyed first. */
  lemma DeliveredMeansCalled(run: seq<State>, steps: seq<Step>, k: nat, id: nat)
    requires IsRun(run, steps) && k < |run| && id in run[k].ops && Settled(run[k], id)
    ensures !run[k].ops[id].winner.Destructor? <==> Called(run[k], id)
  {
    RunInv(run, steps, k);
    OpFacts(run[k], id);
  }

  /** pending counts the queued items and the one being delivered. */
  lemma PendingIsExact(run: seq<State>, steps: seq<Step>, k: nat)
    requires IsRun(run, steps) && k < |run|
    ensures run[k].pending == |run[k].items| + (if Busy(run[k].worker) then 1 else 0)
    ensures Distinct(run[k].items)
  {
    RunInv(run, steps, k);
  }

  /**
    When wait's predicate holds, every accepted item has been delivered or discarded, and
    exactly those whose operation was not abandoned have had their receiver invoked.
   */
  lemma WaitMeansSettled(run: seq<State>, steps: seq<Step>, k: nat, id: nat)
    requires IsRun(run, steps) && k < |run| && run[k].pending == 0
    requires id in run[k].ops && run[k].ops[id].start.Handed?
    ensures run[k].ops[id].delivered || run[k].ops[id].discarded
    ensures Called(run[k], id) <==> !run[k].ops[id].winner.Destructor?
  {
    RunInv(run, steps, k);
    OpFacts(run[k], id);
    if run[k].ops[id].delivered { DeliveredMeansCalled(run, steps, k, id); }
  }

  /** The worker leaves only when nothing is queued and nothing is pending, and then nothing ever is again. */
  lemma {:induction false} ExitIsFinal(run: seq<State>, steps: seq<Step>, k: nat, l: nat)
    requires IsRun(run, steps) && k <= l < |run| && run[k].worker.Exited?
    ensures run[l].worker.Exited? && run[l].items == [] && run[l].pending == 0
    decreases l
  {
    hide Inv, Sound, Enabled, Apply;
    if k < l {
      ExitIsFinal(run, steps, k, l - 1);
      RunInv(run, steps, l - 1);
      ExitStays(run[l - 1], steps[l - 1]);
    }
    RunInv(run, steps, l);
    ExitedIsEmpty(run[l]);
  }

  lemma ExitedIsEmpty(s: State)
    requires Inv(s) && s.worker.Exited?
    ensures s.items == [] && s.pending == 0
  {
  }

  lemma ExitStays(s: State, step: Step)
    requires Inv(s) && Sound(s) && Enabled(s, step) && s.worker.Exited?
    ensures Apply(s, step).worker.Exited?
  {
  }

  // ----- Order of deliveries

  /** No receiver is invoked twice, and with a value only once its deadline has passed. */
  lemma CalledOnceAndDue(run: seq<State>, steps: seq<Step>, k: nat)
    requires IsRun(run, steps) && k < |run|
    ensures var s := run[k];
      && (forall i, j | 0 <= i < j < |s.calls| :: s.calls[i].id != s.calls[j].id)
      && (forall j | 0 <= j < |s.calls| && !s.calls[j].asStopped ::
            s.calls[j].id in s.ops && s.ops[s.calls[j].id].deadline <= s.now)
  {
    RunInv(run, steps, k);
  }

  /** A value delivery takes a due item of least deadline, the first of them, and no queued item is flagged. */
  lemma ValueTakesEarliest(s: State)
    requires Sound(s) && Pick(s).TakeValue?
    ensures var k := Pick(s).at;
      && k < |s.items| && !s.stop && s.ops[s.items[k]].deadline <= s.now
      && (forall j | 0 <= j < |s.items| :: !s.ops[s.items[j]].flagged)
      && (forall j | 0 <= j < |s.items| :: s.ops[s.items[k]].deadline <= s.ops[s.items[j]].deadline)
      && (forall j | 0 <= j < k :: s.ops[s.items[k]].deadline < s.ops[s.items[j]].deadline)
  {
  }

  /** In a run, the item the worker takes for a value delivery is the first due one of least deadline. */
  lemma ValueDeliveriesInOrder(run: seq<State>, steps: seq<Step>, k: nat) returns (p: nat)
    requires IsRun(run, steps) && k < |steps| && steps[k].DoTake?
    requires run[k + 1].worker.Delivering? && !run[k + 1].worker.asStopped
    ensures var s := run[k];
      && p < |s.items| && s.items[p] == run[k + 1].worker.id && s.items[p] in s.ops
      && run[k + 1].items == RemoveAt(s.items, p)
      && !s.stop && s.ops[s.items[p]].deadline <= s.now
      && (forall j | 0 <= j < |s.items| :: s.items[j] in s.ops && !s.ops[s.items[j]].flagged)
      && (forall j | 0 <= j < |s.items| :: s.items[j] in s.ops && s.ops[s.items[p]].deadline <= s.ops[s.items[j]].deadline)
      && (forall j | 0 <= j < p :: s.items[j] in s.ops && s.ops[s.items[p]].deadline < s.ops[s.items[j]].deadline)
  {
    var s := run[k];
    assert Enabled(s, steps[k]) && Sound(s) && run[k + 1] == Take(s);
    hide IsRun, RemoveAt;
    assert forall j | 0 <= j < |s.items| :: s.items[j] in s.items;
    ValueTakesEarliest(s) by { assert Pick(s).TakeValue?; }
    p := Pick(s).at;
  }

  /** The worker goes to sleep on queued items only if none is flagged and none is due. */
  lemma SleepsOnlyWhenNothingIsDue(s: State)
    requires Sound(s) && Pick(s).Sleep?
    ensures !s.stop && s.items != []
    ensures forall j | 0 <= j < |s.items| :: !s.ops[s.items[j]].flagged && s.now < s.ops[s.items[j]].deadline
  {
    var e := Earliest(s.ops, s.items);
  }
}
