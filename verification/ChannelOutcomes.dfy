/**
  What each operation of the channel does to the values and records it meets, what becomes of
  the completions it promises, and what closing and stopping mean for everything after them.
 */
module ChannelOutcomes {
  import opened Channel
  import opened ChannelProofs
  import opened ChannelSteps
  import opened ChannelRuns
  import opened ChannelLaws

  // ----- Closed and stopped

  /** Only close closes, only request_stop stops and discards, only sends submit; what is refused stays refused. */
  ghost predicate Frame(s: State, s': State, step: Step) {
    && s'.capacity == s.capacity
    && (s'.closed <==> s.closed || step.DoClose?)
    && (s'.stopped <==> s.stopped || step.DoRequestStop?)
    && s.refused <= s'.refused
    && (step.DoRequestStop? || s'.discarded == s.discarded)
    && (step.DoStartSend? || step.DoTrySend? || s'.submitted == s.submitted)
  }

  lemma SendFrame(s: State, step: Step)
    requires Known(s) && Enabled(s, step) && (step.DoStartSend? || step.DoTrySend?)
    ensures Frame(s, Apply(s, step), step)
  {
    assert s.recvs != [] ==> s.recvs[0] in s.recvs;
    hide ItemOf;
  }

  lemma RecvFrame(s: State, step: Step)
    requires Known(s) && Enabled(s, step) && (step.DoStartRecv? || step.DoTryRecv?)
    ensures Frame(s, Apply(s, step), step)
  {
    assert s.sends != [] ==> s.sends[0] in s.sends;
    hide ItemOf;
  }

  lemma OtherFrame(s: State, step: Step)
    requires Known(s) && Enabled(s, step)
    requires !step.DoStartSend? && !step.DoTrySend? && !step.DoStartRecv? && !step.DoTryRecv?
    ensures Frame(s, Apply(s, step), step)
  {
    hide Without, ItemsOf, ItemOf, ClaimAll, KindOf, Tickets, Moved, WithCallback;
    match step {
      case DoRecheck(_) =>
      case DoCancel(_, _) =>
      case _ =>
    }
  }

  lemma FrameStep(s: State, step: Step)
    requires Known(s) && Enabled(s, step)
    ensures Frame(s, Apply(s, step), step)
  {
    hide Known, Enabled, Apply;
    if step.DoStartSend? || step.DoTrySend? { SendFrame(s, step); }
    else if step.DoStartRecv? || step.DoTryRecv? { RecvFrame(s, step); }
    else { OtherFrame(s, step); }
  }

  /** A channel is closed or stopped if and only if somebody closed or stopped it. */
  lemma {:induction false} ShutExactly(run: seq<State>, steps: seq<Step>, k: nat)
    requires IsRun(run, steps) && k < |run|
    ensures run[k].closed <==> exists j :: 0 <= j < k && steps[j].DoClose?
    ensures run[k].stopped <==> exists j :: 0 <= j < k && steps[j].DoRequestStop?
  {
    hide Known, Apply, Enabled;
    if k > 0 {
      ShutExactly(run, steps, k - 1);
      FrameStep(run[k - 1], steps[k - 1]);
    }
  }

  /** close or request_stop was called before step `k`. */
  ghost predicate ShutBefore(steps: seq<Step>, k: nat)
    requires k <= |steps|
  {
    exists j :: 0 <= j < k && (steps[j].DoClose? || steps[j].DoRequestStop?)
  }

  lemma ShutIs(run: seq<State>, steps: seq<Step>, k: nat)
    requires IsRun(run, steps) && k < |run|
    ensures ShutBefore(steps, k) <==> run[k].closed || run[k].stopped
  {
    ShutExactly(run, steps, k);
  }

  /** Once the channel is shut nobody is queued, now or later. */
  lemma NobodyQueuesAfterShut(run: seq<State>, steps: seq<Step>, k: nat, id: nat)
    requires IsRun(run, steps) && k < |run| && ShutBefore(steps, k)
    ensures run[k].sends == [] && run[k].recvs == []
    ensures id in run[k].recs ==> !run[k].recs[id].place.Pending?
  {
    ShutIs(run, steps, k);
    RunInv(run, steps, k);
    if id in run[k].recs { assert Placed(run[k], id); }
  }

  // ----- Promises

  /** The signal a claimed record is going to get. */
  function Signal(how: How): Kind {
    match how
    case AsValue => Value
    case AsError => Error
    case AsStopped => Stopped
    case AsPrepared => Stopped
  }

  /** Record `id` is claimed by task `n`, which is going to complete it with `kind`. */
  predicate Promised(s: State, id: nat, n: nat, kind: Kind) {
    && id in s.recs && s.recs[id].place.Claimed? && s.recs[id].place.task == n
    && Signal(s.recs[id].place.how) == kind
  }

  // ----- Sending

  /** What a send does with its ticket `t` and its record `id`, told from the state before. */
  ghost predicate Sent(s: State, s': State, id: nat, grows: bool, n: nat, shut: bool)
    requires id in s.recs && s.recs[id].Send?
  {
    var item := Item(|s.submitted|, s.recs[id].value);
    if shut || StopRequested(s.recs[id]) then
      && item.ticket in s'.refused && Promised(s', id, n, Stopped) && s'.tasks == s.tasks[n := [id]]
      && s'.buffer == s.buffer && s'.received == s.received && s'.recvs == s.recvs && s'.sends == s.sends
    else if s.recvs != [] then
      && s'.received == s.received + [Delivery(item, Some(s.recvs[0]))] && s'.recvs == s.recvs[1..]
      && Promised(s', s.recvs[0], n, Value) && Promised(s', id, n, Value)
      && s'.tasks == s.tasks[n := [s.recvs[0], id]] && s'.buffer == [] && s'.sends == []
    else if s.sends == [] && |s.buffer| < s.capacity then
      && s'.received == s.received && s'.recvs == [] && s'.sends == [] && s'.tasks == s.tasks[n := [id]]
      && if grows then s'.buffer == s.buffer + [item] && Promised(s', id, n, Value)
         else s'.buffer == s.buffer && item.ticket in s'.refused && Promised(s', id, n, Error)
    else
      && s'.received == s.received && s'.recvs == [] && s'.tasks == s.tasks && s'.buffer == s.buffer
      && s'.sends == s.sends + [id] && id in s'.recs && ItemOf(s'.recs, id) == item && s'.recheck == Some(id)
  }

  /**
    start_send: refused and stopped on a shut channel or with its flag up; handed to the first
    waiting receiver, which is completed first; buffered if there is room, or failed if there
    is no memory for it; queued otherwise.
   */
  lemma SendOutcome(run: seq<State>, steps: seq<Step>, k: nat)
    requires IsRun(run, steps) && k < |steps| && steps[k].DoStartSend?
    ensures steps[k].id in run[k].recs && run[k].recs[steps[k].id].Send?
    ensures Sent(run[k], run[k + 1], steps[k].id, steps[k].grows, steps[k].n, ShutBefore(steps, k))
    ensures run[k + 1].submitted == run[k].submitted + [Submission(run[k].recs[steps[k].id].value, Some(steps[k].id))]
  {
    ShutIs(run, steps, k);
    RunInv(run, steps, k);
    SendStep(run[k], steps[k].id, steps[k].grows, steps[k].n);
  }

  lemma SendStep(s: State, id: nat, grows: bool, n: nat)
    requires Inv(s) && Known(s) && Enabled(s, DoStartSend(id, grows, n))
    ensures Sent(s, StartSend(s, id, grows, n), id, grows, n, s.closed || s.stopped)
    ensures StartSend(s, id, grows, n).submitted == s.submitted + [Submission(s.recs[id].value, Some(id))]
  {
    if s.closed || s.stopped || StopRequested(s.recs[id]) {
      RefuseStep(s, id, grows, n);
    } else if s.recvs != [] {
      HandStep(s, id, grows, n);
    } else {
      RoomStep(s, id, grows, n);
    }
  }

  lemma RefuseStep(s: State, id: nat, grows: bool, n: nat)
    requires Known(s) && Enabled(s, DoStartSend(id, grows, n))
    requires s.closed || s.stopped || StopRequested(s.recs[id])
    ensures Sent(s, StartSend(s, id, grows, n), id, grows, n, s.closed || s.stopped)
    ensures StartSend(s, id, grows, n).submitted == s.submitted + [Submission(s.recs[id].value, Some(id))]
  {
  }

  lemma RoomStep(s: State, id: nat, grows: bool, n: nat)
    requires Known(s) && Enabled(s, DoStartSend(id, grows, n))
    requires s.recvs == [] && !s.closed && !s.stopped && !StopRequested(s.recs[id])
    ensures Sent(s, StartSend(s, id, grows, n), id, grows, n, false)
    ensures StartSend(s, id, grows, n).submitted == s.submitted + [Submission(s.recs[id].value, Some(id))]
  {
  }

  lemma HandStep(s: State, id: nat, grows: bool, n: nat)
    requires Inv(s) && Known(s) && Enabled(s, DoStartSend(id, grows, n))
    requires s.recvs != [] && !s.closed && !s.stopped && !StopRequested(s.recs[id])
    ensures Sent(s, StartSend(s, id, grows, n), id, grows, n, false)
    ensures StartSend(s, id, grows, n).submitted == s.submitted + [Submission(s.recs[id].value, Some(id))]
  {
    RecvHead(s);
    hide Core;
    assert s.recvs[0] != id;
  }

  /** try_send: refused on a shut or full channel or without memory, else handed over or buffered. */
  lemma TrySendOutcome(run: seq<State>, steps: seq<Step>, k: nat)
    requires IsRun(run, steps) && k < |steps| && steps[k].DoTrySend?
    ensures var s, s', n := run[k], run[k + 1], steps[k].n;
      var item := Item(|s.submitted|, steps[k].value);
      && s'.submitted == s.submitted + [Submission(item.value, None)] && s'.sends == s.sends
      && if !ShutBefore(steps, k) && s.recvs != [] then
           && s'.received == s.received + [Delivery(item, Some(s.recvs[0]))] && s'.recvs == s.recvs[1..]
           && Promised(s', s.recvs[0], n, Value) && s'.tasks == s.tasks[n := [s.recvs[0]]]
         else
           && s'.received == s.received && s'.recvs == s.recvs && s'.tasks == s.tasks
           && if !ShutBefore(steps, k) && s.sends == [] && |s.buffer| < s.capacity && steps[k].grows
              then s'.buffer == s.buffer + [item]
              else s'.buffer == s.buffer && item.ticket in s'.refused
  {
    ShutIs(run, steps, k);
    RunInv(run, steps, k);
    if run[k].recvs != [] { RecvHead(run[k]); }
    hide Core;
  }

  /** A value refused is refused for good. */
  lemma {:induction false} RefusedStays(run: seq<State>, steps: seq<Step>, k: nat, l: nat)
    requires IsRun(run, steps) && k <= l < |run|
    ensures run[k].refused <= run[l].refused
    decreases l
  {
    hide Known, Apply, Enabled;
    if k < l {
      RefusedStays(run, steps, k, l - 1);
      FrameStep(run[l - 1], steps[l - 1]);
    }
  }

  /** After close or request_stop every send is refused, for good, and its value never received. */
  lemma SendsRefusedAfterShut(run: seq<State>, steps: seq<Step>, j: nat, k: nat, l: nat)
    requires IsRun(run, steps) && j < k < l < |run| && (steps[j].DoClose? || steps[j].DoRequestStop?)
    requires steps[k].DoStartSend? || steps[k].DoTrySend?
    ensures |run[k].submitted| in run[l].refused
    ensures forall d | d in run[l].received :: d.item.ticket != |run[k].submitted|
    ensures steps[k].DoStartSend? ==> Promised(run[k + 1], steps[k].id, steps[k].n, Stopped)
  {
    assert ShutBefore(steps, k);
    if steps[k].DoStartSend? { SendOutcome(run, steps, k); } else { TrySendOutcome(run, steps, k); }
    RefusedStays(run, steps, k + 1, l);
    RunInv(run, steps, l);
    hide IsRun;
    RefusedNotReceived(run[l], |run[k].submitted|);
  }

  lemma RefusedNotReceived(s: State, t: nat)
    requires Inv(s) && t in s.refused
    ensures forall d | d in s.received :: d.item.ticket != t
  {
    forall d | d in s.received ensures d.item.ticket != t {
      var i :| 0 <= i < |s.received| && s.received[i] == d;
      assert Line(s)[i] == d.item;
      assert InItems(Line(s), d.item.ticket);
      assert OneFate(Line(s), s.refused, s.discarded, t);
    }
  }

  // ----- Receiving

  /**
    The head of the queue has been taken: the first queued send, if any, moves into the freed
    slot or, where nothing was buffered, gave its value away itself.  `first` is the receiver.
   */
  ghost predicate HeadTaken(s: State, s': State, grows: bool, n: nat, first: seq<nat>) {
    if s.buffer == [] then
      && s.sends != [] && s'.buffer == [] && s'.sends == s.sends[1..]
      && Promised(s', s.sends[0], n, Value) && s'.tasks == s.tasks[n := first + [s.sends[0]]]
    else if s.sends == [] then
      s'.buffer == s.buffer[1..] && s'.sends == [] && s'.tasks == s.tasks[n := first]
    else
      && s'.sends == s.sends[1..] && s'.tasks == s.tasks[n := first + [s.sends[0]]]
      && if grows then
           s'.buffer == s.buffer[1..] + [ItemOf(s.recs, s.sends[0])] && Promised(s', s.sends[0], n, Value)
         else
           s'.buffer == s.buffer[1..] && ItemOf(s.recs, s.sends[0]).ticket in s'.refused && Promised(s', s.sends[0], n, Error)
  }

  /**
    start_recv: takes the head of the queue while there is one, promoting the first queued
    send; else stopped on a shut channel or with its flag up; else queued.
   */
  ghost predicate Receives(s: State, s': State, id: nat, grows: bool, n: nat, shut: bool)
    requires id in s.recs && s.recs[id].Recv?
  {
    if Queue(s) != [] then
      && s'.received == s.received + [Delivery(Queue(s)[0], Some(id))]
      && Promised(s', id, n, Value) && s'.recvs == s.recvs && HeadTaken(s, s', grows, n, [id])
    else
      && s'.received == s.received && s'.buffer == s.buffer && s'.sends == s.sends
      && if shut || StopRequested(s.recs[id]) then
           Promised(s', id, n, Stopped) && s'.tasks == s.tasks[n := [id]] && s'.recvs == s.recvs
         else
           && s'.recvs == s.recvs + [id] && s'.tasks == s.tasks && s'.recheck == Some(id)
           && id in s'.recs && s'.recs[id].place.Pending?
  }

  lemma RecvOutcome(run: seq<State>, steps: seq<Step>, k: nat)
    requires IsRun(run, steps) && k < |steps| && steps[k].DoStartRecv?
    ensures steps[k].id in run[k].recs && run[k].recs[steps[k].id].Recv?
    ensures Receives(run[k], run[k + 1], steps[k].id, steps[k].grows, steps[k].n, ShutBefore(steps, k))
  {
    ShutIs(run, steps, k);
    RunInv(run, steps, k);
    RecvStep(run[k], steps[k].id, steps[k].grows, steps[k].n);
  }

  lemma RecvStep(s: State, id: nat, grows: bool, n: nat)
    requires Inv(s) && Known(s) && Enabled(s, DoStartRecv(id, grows, n))
    ensures Receives(s, StartRecv(s, id, grows, n), id, grows, n, s.closed || s.stopped)
  {
    if s.buffer != [] {
      RecvFromBuffer(s, id, grows, n);
    } else if s.sends != [] {
      RecvFromSend(s, id, grows, n);
    } else {
      hide Core;
      assert Queue(s) == [];
    }
  }

  lemma RecvFromBuffer(s: State, id: nat, grows: bool, n: nat)
    requires Inv(s) && Known(s) && Enabled(s, DoStartRecv(id, grows, n)) && s.buffer != []
    ensures Receives(s, StartRecv(s, id, grows, n), id, grows, n, s.closed || s.stopped)
  {
    if s.sends != [] { SendHead(s); }
    hide Core;
    assert Queue(s)[0] == s.buffer[0];
    if s.sends != [] {
      var s0 := Channel.Deliver(s.(buffer := s.buffer[1..]), s.buffer[0], id, n);
      assert ItemOf(s0.recs, s.sends[0]) == ItemOf(s.recs, s.sends[0]);
      hide ItemOf, Queue;
    } else {
      assert [id] + [] == [id];
    }
  }

  lemma RecvFromSend(s: State, id: nat, grows: bool, n: nat)
    requires Inv(s) && Known(s) && Enabled(s, DoStartRecv(id, grows, n)) && s.buffer == [] && s.sends != []
    ensures Receives(s, StartRecv(s, id, grows, n), id, grows, n, s.closed || s.stopped)
  {
    SendHead(s);
    hide Core;
    assert Queue(s)[0] == ItemOf(s.recs, s.sends[0]);
    hide ItemOf, Queue;
    assert [id] + [s.sends[0]] == [id, s.sends[0]];
  }

  /** try_recv: the head of the queue while there is one, else nothing at all. */
  lemma TryRecvOutcome(run: seq<State>, steps: seq<Step>, k: nat)
    requires IsRun(run, steps) && k < |steps| && steps[k].DoTryRecv?
    ensures var s, s' := run[k], run[k + 1];
      if Queue(s) == [] then s' == s
      else && s'.received == s.received + [Delivery(Queue(s)[0], None)]
           && s'.recvs == s.recvs && HeadTaken(s, s', steps[k].grows, steps[k].n, [])
  {
    RunInv(run, steps, k);
    TryRecvStep(run[k], steps[k].grows, steps[k].n);
  }

  lemma TryRecvStep(s: State, grows: bool, n: nat)
    requires Inv(s) && Known(s) && Enabled(s, DoTryRecv(grows, n))
    ensures var s' := TryRecv(s, grows, n);
      if Queue(s) == [] then s' == s
      else && s'.received == s.received + [Delivery(Queue(s)[0], None)]
           && s'.recvs == s.recvs && HeadTaken(s, s', grows, n, [])
  {
    if s.sends != [] { SendHead(s); }
    hide Core;
    assert s.buffer != [] ==> Queue(s)[0] == s.buffer[0];
    assert s.buffer == [] && s.sends != [] ==> Queue(s)[0] == ItemOf(s.recs, s.sends[0]);
    assert s.buffer == [] && s.sends == [] ==> Queue(s) == [];
    assert Queue(s) == [] ==> s.buffer == [] && s.sends == [];
    assert s.sends != [] ==> [] + [s.sends[0]] == [s.sends[0]];
    hide ItemOf, Queue;
  }

  /** After close or request_stop a receive takes what is buffered, and is stopped once nothing is. */
  lemma RecvsAfterShut(run: seq<State>, steps: seq<Step>, j: nat, k: nat)
    requires IsRun(run, steps) && j < k < |steps| && (steps[j].DoClose? || steps[j].DoRequestStop?)
    requires steps[k].DoStartRecv? || steps[k].DoTryRecv?
    ensures var s, s' := run[k], run[k + 1];
      if s.buffer != [] then
        && s'.received == s.received + [Delivery(s.buffer[0], if steps[k].DoStartRecv? then Some(steps[k].id) else None)]
        && s'.buffer == s.buffer[1..]
      else
        && s'.received == s.received
        && (if steps[k].DoStartRecv? then Promised(s', steps[k].id, steps[k].n, Stopped) else s' == s)
  {
    assert ShutBefore(steps, k);
    NobodyQueuesAfterShut(run, steps, k, 0);
    if steps[k].DoStartRecv? { RecvOutcome(run, steps, k); } else { TryRecvOutcome(run, steps, k); }
    hide IsRun, ShutBefore;
    assert Queue(run[k]) == run[k].buffer;
  }

  // ----- Withdrawing

  ghost predicate Removed(q: seq<nat>, q': seq<nat>, id: nat) {
    exists p :: 0 <= p < |q| && q[p] == id && q' == q[..p] + q[p + 1..]
  }

  /** The queued record `id` leaves its queue, to be completed with stopped, its value refused. */
  ghost predicate Withdrawn(s: State, s': State, id: nat, n: nat)
    requires id in s.recs
  {
    && Promised(s', id, n, Stopped) && s'.tasks == s.tasks[n := [id]]
    && s'.buffer == s.buffer && s'.received == s.received
    && if s.recs[id].Send? then
         Removed(s.sends, s'.sends, id) && s'.recvs == s.recvs && ItemOf(s.recs, id).ticket in s'.refused
       else Removed(s.recvs, s'.recvs, id) && s'.sends == s.sends
  }

  lemma StopOneWithdraws(s: State, id: nat, n: nat)
    requires id in s.recs && id in (if s.recs[id].Send? then s.sends else s.recvs)
    ensures Withdrawn(s, StopOne(s, id, n), id, n)
  {
    hide Without, ItemOf, Removed;
    var s' := StopOne(s, id, n);
    assert Promised(s', id, n, Stopped);
    if s.recs[id].Send? { RemovedIs(s.sends, id); } else { RemovedIs(s.recvs, id); }
  }

  lemma RemovedIs(q: seq<nat>, id: nat)
    requires id in q
    ensures Removed(q, Without(q, id), id)
  {
    var p := WithoutSplits(q, id);
  }

  /** A start that queued itself is withdrawn if and only if its flag is up by the time it looks again. */
  lemma RecheckOutcome(run: seq<State>, steps: seq<Step>, k: nat)
    requires IsRun(run, steps) && k < |steps| && steps[k].DoRecheck?
    ensures run[k].recheck.Some? && run[k].recheck.value in run[k].recs
    ensures var s, s', id := run[k], run[k + 1], run[k].recheck.value;
      if StopRequested(s.recs[id]) then Withdrawn(s, s', id, steps[k].n) && s'.recheck.None?
      else s' == s.(recheck := None)
  {
    RunInv(run, steps, k);
    var id := run[k].recheck.value;
    PendingIsQueued(run[k], id);
    if StopRequested(run[k].recs[id]) { StopOneWithdraws(run[k].(recheck := None), id, steps[k].n); }
    hide Core, Without;
  }

  /** The stop callback withdraws a record that is still queued and leaves any other alone. */
  lemma CancelOutcome(run: seq<State>, steps: seq<Step>, k: nat)
    requires IsRun(run, steps) && k < |steps| && steps[k].DoCancel?
    ensures steps[k].id in run[k].recs
    ensures var s, s', id := run[k], run[k + 1], steps[k].id;
      if s.recs[id].place.Pending? then Withdrawn(s, s', id, steps[k].n)
      else s' == s.(recs := s'.recs) && id in s'.recs && s'.recs[id].place == s.recs[id].place
  {
    RunInv(run, steps, k);
    CancelStep(run[k], steps[k].id, steps[k].n);
  }

  lemma CancelStep(s: State, id: nat, n: nat)
    requires Inv(s) && Known(s) && Enabled(s, DoCancel(id, n))
    ensures var s' := Cancel(s, id, n);
      if s.recs[id].place.Pending? then Withdrawn(s, s', id, n)
      else s' == s.(recs := s'.recs) && id in s'.recs && s'.recs[id].place == s.recs[id].place
  {
    FlaggedIsPlaced(s, id);
    hide Core;
    var s0 := s.(recs := s.recs[id := WithCallback(s.recs[id], Fired)]);
    if s.recs[id].place.Pending? { StopOneWithdraws(s0, id, n); }
    hide Without;
  }
}
