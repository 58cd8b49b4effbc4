/**
  What the bounded channel promises over every run.
 */
module ChannelLaws {
  import opened Channel
  import opened ChannelProofs
  import opened ChannelSteps
  import opened ChannelRuns

  // ----- First in, first out

  /**
    Every receive takes the head of the abstract queue; only when the queue is empty may a
    value go straight from its submission to a waiting receiver.
   */
  lemma ReceivesHead(s: State, step: Step)
    requires Inv(s) && Known(s) && Enabled(s, step)
    ensures HeadOnly(s, Apply(s, step))
  {
    hide Core;
    if step.DoStartSend? || step.DoTrySend? { SendsPassThrough(s, step); }
    else if step.DoStartRecv? { StartRecvTakesHead(s, step.id, step.grows, step.n); }
    else if step.DoTryRecv? { TryRecvTakesHead(s, step.grows, step.n); }
    else { NotReceiving(s, step); }
  }

  ghost predicate HeadOnly(s: State, s': State) {
    || s'.received == s.received
    || (Queue(s) != [] && Items(s'.received) == Items(s.received) + [Queue(s)[0]])
    || (Queue(s) == [] && |s'.submitted| == |s.submitted| + 1
        && Items(s'.received) == Items(s.received) + [Item(|s.submitted|, s'.submitted[|s.submitted|].value)])
  }

  lemma SendsPassThrough(s: State, step: Step)
    requires Bounds(s) && Known(s) && Enabled(s, step) && (step.DoStartSend? || step.DoTrySend?)
    ensures HeadOnly(s, Apply(s, step))
  {
    if s.recvs != [] { assert s.recvs[0] in s.recvs; }
  }

  lemma StartRecvTakesHead(s: State, id: nat, grows: bool, n: nat)
    requires Known(s) && Enabled(s, DoStartRecv(id, grows, n))
    ensures HeadOnly(s, StartRecv(s, id, grows, n))
  {
    if s.sends != [] { assert s.sends[0] in s.sends; }
  }

  lemma TryRecvTakesHead(s: State, grows: bool, n: nat)
    requires Known(s) && Enabled(s, DoTryRecv(grows, n))
    ensures HeadOnly(s, TryRecv(s, grows, n))
  {
    if s.sends != [] { assert s.sends[0] in s.sends; }
  }

  lemma NotReceiving(s: State, step: Step)
    requires Known(s) && Enabled(s, step)
    requires !step.DoStartSend? && !step.DoTrySend? && !step.DoStartRecv? && !step.DoTryRecv?
    ensures Apply(s, step).received == s.received
  {
  }

  /** Values are received in the order of their submission, unaltered, ahead of everything queued. */
  lemma FifoOrder(run: seq<State>, steps: seq<Step>, k: nat)
    requires IsRun(run, steps) && k < |run|
    ensures var s := run[k];
      && InOrder(Items(s.received) + Queue(s), s.submitted)
      && forall i, j | 0 <= i < j < |s.received| :: s.received[i].item.ticket < s.received[j].item.ticket
  {
    RunInv(run, steps, k);
    var s := run[k];
    assert Line(s) == Items(s.received) + Queue(s);
    forall i, j | 0 <= i < j < |s.received| ensures s.received[i].item.ticket < s.received[j].item.ticket {
      assert Line(s)[i] == s.received[i].item && Line(s)[j] == s.received[j].item;
    }
  }

  // ----- Conservation

  datatype Fate = Received | InFlight | Refused | Discarded

  ghost predicate Has(s: State, t: nat, fate: Fate) {
    match fate
    case Received => InItems(Items(s.received), t)
    case InFlight => InItems(Queue(s), t)
    case Refused => t in s.refused
    case Discarded => t in s.discarded
  }

  /** Every submitted value is exactly one of received, in flight, refused or discarded. */
  lemma Conservation(run: seq<State>, steps: seq<Step>, k: nat, t: nat) returns (fate: Fate)
    requires IsRun(run, steps) && k < |run| && t < |run[k].submitted|
    ensures Has(run[k], t, fate)
    ensures forall other | Has(run[k], t, other) :: other == fate
  {
    RunInv(run, steps, k);
    var s := run[k];
    assert Line(s) == Items(s.received) + Queue(s);
    PartsApart(Items(s.received), Queue(s), s.submitted, t);
    assert OneFate(Line(s), s.refused, s.discarded, t);
    fate := if InItems(Items(s.received), t) then Received
            else if InItems(Queue(s), t) then InFlight
            else if t in s.refused then Refused else Discarded;
  }

  // ----- Completions

  /** No record is completed, or asked to complete, twice. */
  lemma AtMostOneCompletion(run: seq<State>, steps: seq<Step>, k: nat)
    requires IsRun(run, steps) && k < |run|
    ensures forall i, j | 0 <= i < j < |run[k].calls| :: run[k].calls[i].id != run[k].calls[j].id
  {
    RunInv(run, steps, k);
  }

  lemma {:induction false} CallsGrow(run: seq<State>, steps: seq<Step>, k: nat, l: nat)
    requires IsRun(run, steps) && k <= l < |run|
    ensures run[k].calls <= run[l].calls
    decreases l
  {
    hide Known, Apply, Enabled;
    if k < l {
      CallsGrow(run, steps, k, l - 1);
      StepCalls(run[l - 1], steps[l - 1]);
    }
  }

  lemma StepCalls(s: State, step: Step)
    requires Known(s) && Enabled(s, step)
    ensures s.calls <= Apply(s, step).calls
  {
    if s.sends != [] { assert s.sends[0] in s.sends; }
  }

  /** A value delivered from the send record `id`. */
  ghost predicate CameFrom(s: State, d: Delivery, id: nat) {
    d.item.ticket < |s.submitted| && s.submitted[d.item.ticket].from == Some(id)
  }

  /** Once a send has completed with stopped or an error, nobody ever receives its value. */
  lemma FailedSendNeverReceived(run: seq<State>, steps: seq<Step>, k: nat, l: nat, call: Call)
    requires IsRun(run, steps) && k <= l < |run| && call in run[k].calls && !call.kind.Value?
    requires call.id in run[l].recs && run[l].recs[call.id].Send?
    ensures forall d | d in run[l].received :: !CameFrom(run[l], d, call.id)
  {
    CallsGrow(run, steps, k, l);
    RunInv(run, steps, l);
    FailedNotReceived(run[l], call);
  }

  lemma FailedNotReceived(s: State, call: Call)
    requires Inv(s) && call in s.calls && !call.kind.Value?
    requires call.id in s.recs && s.recs[call.id].Send?
    ensures forall d | d in s.received :: !CameFrom(s, d, call.id)
  {
    var r := s.recs[call.id];
    assert r.place == Done(call.kind);
    assert Outcome(s, call.id);
    forall d | d in s.received ensures !CameFrom(s, d, call.id) {
      var k :| 0 <= k < |s.received| && s.received[k] == d;
      assert Line(s)[k] == d.item;
      assert InItems(Line(s), d.item.ticket);
      assert OneFate(Line(s), s.refused, s.discarded, d.item.ticket);
      if CameFrom(s, d, call.id) {
        OwnTicket(s, d, call.id);
      }
    }
  }

  /** A submission of a record carries that record's ticket. */
  lemma OwnTicket(s: State, d: Delivery, id: nat)
    requires Inv(s) && id in s.recs && s.recs[id].Send? && CameFrom(s, d, id)
    ensures s.recs[id].ticket == Some(d.item.ticket)
  {
    assert SubmissionOk(s, d.item.ticket);
  }

  /** A send that completed with a value got it into the channel, and it is not lost there. */
  lemma SuccessfulSendAccepted(run: seq<State>, steps: seq<Step>, k: nat, call: Call) returns (t: nat)
    requires IsRun(run, steps) && k < |run| && call in run[k].calls && call.kind.Value?
    requires call.id in run[k].recs && run[k].recs[call.id].Send?
    ensures t < |run[k].submitted| && run[k].submitted[t] == Submission(run[k].recs[call.id].value, Some(call.id))
    ensures Has(run[k], t, Received) || Has(run[k], t, InFlight) || Has(run[k], t, Discarded)
  {
    RunInv(run, steps, k);
    var s := run[k];
    assert Outcome(s, call.id);
    t := s.recs[call.id].ticket.value;
    if InItems(Taken(s), t) {
      var j :| 0 <= j < |Taken(s)| && Taken(s)[j].ticket == t;
      if j < |s.received| { assert Items(s.received)[j].ticket == t; }
      else { assert Queue(s)[j - |s.received|].ticket == t; }
    }
  }

  /** A receive completed with a value if and only if exactly one value was handed to it. */
  lemma ReceiveOutcome(run: seq<State>, steps: seq<Step>, k: nat, call: Call)
    requires IsRun(run, steps) && k < |run| && call in run[k].calls
    requires call.id in run[k].recs && run[k].recs[call.id].Recv?
    ensures call.kind.Value? <==> exists i :: HandedTo(run[k], i, call.id)
    ensures forall i, j | HandedTo(run[k], i, call.id) && HandedTo(run[k], j, call.id) :: i == j
    ensures !call.kind.Error?
  {
    RunInv(run, steps, k);
    HandedOnce(run[k], call);
  }

  ghost predicate HandedTo(s: State, i: nat, id: nat) {
    i < |s.received| && s.received[i].to == Some(id)
  }

  lemma HandedOnce(s: State, call: Call)
    requires Inv(s) && call in s.calls && call.id in s.recs && s.recs[call.id].Recv?
    ensures call.kind.Value? <==> exists i :: HandedTo(s, i, call.id)
    ensures forall i, j | HandedTo(s, i, call.id) && HandedTo(s, j, call.id) :: i == j
    ensures !call.kind.Error?
  {
    assert Outcome(s, call.id);
    if call.kind.Value? {
      var i :| 0 <= i < |s.received| && s.received[i] == Delivery(s.recs[call.id].got.value, Some(call.id));
      assert HandedTo(s, i, call.id);
    }
    forall i: nat, j: nat | HandedTo(s, i, call.id) && HandedTo(s, j, call.id) ensures i == j {
      assert DeliveryOk(s, s.received[i]) && DeliveryOk(s, s.received[j]);
      assert Line(s)[i] == s.received[i].item && Line(s)[j] == s.received[j].item;
    }
    forall i: nat | HandedTo(s, i, call.id) ensures call.kind.Value? {
      assert DeliveryOk(s, s.received[i]);
    }
  }

  // ----- Waiting

  /** Receivers wait only for an empty channel; nobody waits on one that is closed or stopped. */
  lemma WaitingReceiversSeeNothing(run: seq<State>, steps: seq<Step>, k: nat)
    requires IsRun(run, steps) && k < |run|
    ensures run[k].recvs != [] ==> Queue(run[k]) == []
    ensures |run[k].buffer| <= run[k].capacity
    ensures run[k].closed || run[k].stopped ==> run[k].sends == [] && run[k].recvs == []
    ensures run[k].stopped ==> run[k].buffer == []
  {
    RunInv(run, steps, k);
  }

  /** A receiver that waits, or that close has detached, holds no prepared value. */
  lemma NoPreparedValueWaits(run: seq<State>, steps: seq<Step>, k: nat, id: nat)
    requires IsRun(run, steps) && k < |run| && id in run[k].recs && run[k].recs[id].Recv?
    requires run[k].recs[id].place.Pending? || (exists t :: run[k].recs[id].place == Claimed(t, AsPrepared))
    ensures run[k].recs[id].got.None? && KindOf(run[k].recs[id]) == Stopped
  {
    RunInv(run, steps, k);
    assert Outcome(run[k], id);
  }

  /** A queued record whose flag is up has a callback between raising the flag and taking the lock. */
  lemma NoLostCancellation(run: seq<State>, steps: seq<Step>, k: nat, id: nat)
    requires IsRun(run, steps) && k < |run|
    requires id in run[k].sends || id in run[k].recvs
    ensures id in run[k].recs && (StopRequested(run[k].recs[id]) ==> run[k].recs[id].cb.Flagged?)
  {
    RunInv(run, steps, k);
  }

  /** Nothing is left to do: lock free, no task under way, no callback on its way to the lock. */
  ghost predicate Quiet(s: State) {
    && s.recheck.None?
    && (forall t | t in s.tasks :: s.tasks[t] == [])
    && (forall id | id in s.recs :: !s.recs[id].cb.Flagged?)
  }

  /** In a quiet state every started record is done, or rightly waiting on an open channel. */
  lemma QuietMeansSettled(run: seq<State>, steps: seq<Step>, k: nat, id: nat)
    requires IsRun(run, steps) && k < |run| && Quiet(run[k]) && id in run[k].recs
    ensures var s := run[k]; var r := s.recs[id];
      || r.place.Created? || r.place.Ready?
      || (r.place.Done? && exists i :: 0 <= i < |s.calls| && s.calls[i] == Call(id, r.place.kind))
      || (r.place.Pending? && !StopRequested(r) && !s.closed && !s.stopped)
  {
    RunInv(run, steps, k);
    var s := run[k];
    assert Placed(s, id);
  }

  /** A send waits although the buffer has room exactly when promotions failed since the queue was empty. */
  lemma WaitsWithRoomExactly(run: seq<State>, steps: seq<Step>, k: nat)
    requires IsRun(run, steps) && k < |run| && run[k].sends != []
    ensures |run[k].buffer| < run[k].capacity <==> run[k].failures > 0
  {
    RunInv(run, steps, k);
  }

  /** One more step of a run. */
  lemma Extend(run: seq<State>, steps: seq<Step>, step: Step) returns (run': seq<State>, steps': seq<Step>)
    requires IsRun(run, steps) && Enabled(run[|steps|], step)
    ensures Known(run[|steps|]) && IsRun(run', steps') && run'[|steps'|] == Apply(run[|steps|], step)
  {
    RunInv(run, steps, |steps|);
    InvKnown(run[|steps|]);
    run' := run + [Apply(run[|steps|], step)];
    steps' := steps + [step];
    hide Known, Apply, Enabled, Inv;
    forall j | 0 <= j < |steps'|
      ensures Enabled(run'[j], steps'[j]) && Known(run'[j]) && run'[j + 1] == Apply(run'[j], steps'[j])
    {
      if j < |steps| {
        assert Enabled(run[j], steps[j]) && Known(run[j]) && run[j + 1] == Apply(run[j], steps[j]);
      }
    }
  }

  /** Such a run: capacity one, a buffered value, two queued sends, and one failed promotion. */
  lemma WaitsWithRoom() returns (run: seq<State>, steps: seq<Step>)
    ensures IsRun(run, steps) && run[|steps|].sends != [] && |run[|steps|].buffer| < run[|steps|].capacity
  {
    run, steps := TwoQueued();
    var s := run[|steps|];
    run, steps := Extend(run, steps, DoTryRecv(false, 2));
  }

  lemma TwoQueued() returns (run: seq<State>, steps: seq<Step>)
    ensures IsRun(run, steps)
    ensures var s := run[|steps|];
      && s.capacity == 1 && s.sends == [0, 1] && |s.buffer| == 1 && s.recheck.None? && s.tasks == map[]
  {
    run, steps := [Init(1)], [];
    run, steps := Extend(run, steps, DoTrySend(7, true, 0));
    run, steps := QueueOne(run, steps, 0);
    run, steps := QueueOne(run, steps, 1);
  }

  /** A new send finds the buffer full and queues itself. */
  lemma QueueOne(run: seq<State>, steps: seq<Step>, id: nat) returns (run': seq<State>, steps': seq<Step>)
    requires IsRun(run, steps)
    requires var s := run[|steps|];
      && id !in s.recs && !s.closed && !s.stopped && s.recvs == [] && s.recheck.None? && |s.buffer| == s.capacity
      && s.tasks == map[]
    ensures IsRun(run', steps')
    ensures var s, s' := run[|steps|], run'[|steps'|];
      && s'.recs.Keys == s.recs.Keys + {id} && s'.sends == s.sends + [id] && s'.buffer == s.buffer
      && !s'.closed && !s'.stopped && s'.recvs == [] && s'.recheck.None? && s'.capacity == s.capacity
      && s'.tasks == map[]
  {
    run', steps' := Extend(run, steps, DoCreate(id, Send(7, None, Off, Created)));
    run', steps' := Extend(run', steps', DoInstall(id, false));
    run', steps' := Extend(run', steps', DoStartSend(id, true, 0));
    run', steps' := Extend(run', steps', DoRecheck(0));
  }
}
