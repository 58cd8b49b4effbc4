/**
  The invariant of the bounded channel over whole runs, and what it promises.
 */
module ChannelRuns {
  import opened Channel
  import opened ChannelProofs
  import opened ChannelSteps

  lemma InitInv(capacity: nat)
    ensures Inv(Init(capacity))
  {
  }

  // ----- One lemma per critical section

  lemma RecvHead(s: State)
    requires Core(s) && s.recvs != []
    ensures s.recvs[0] in s.recs && s.recs[s.recvs[0]].Recv? && s.recs[s.recvs[0]].place.Pending?
    ensures Distinct(s.recvs)
  {
    assert s.recvs[0] in s.recvs;
  }

  lemma SendHead(s: State)
    requires Core(s) && s.sends != []
    ensures s.sends[0] in s.recs && s.recs[s.sends[0]].Send? && s.recs[s.sends[0]].place.Pending?
    ensures Distinct(s.sends)
  {
    assert s.sends[0] in s.sends;
  }

  lemma GainsNew(s: State, s': State, n: nat, ids: seq<nat>)
    requires n !in s.tasks && s'.tasks == s.tasks[n := ids] && Distinct(ids)
    ensures Gains(s, s', n, ids)
  {
  }

  /** A task in the making gets one more call, in front or behind. */
  lemma GainsOne(s: State, s': State, n: nat, id: nat, ids: seq<nat>)
    requires n in s.tasks && Distinct(s.tasks[n]) && id !in s.tasks[n] && s'.tasks == s.tasks[n := ids]
    requires ids == [id] + s.tasks[n] || ids == s.tasks[n] + [id]
    ensures Gains(s, s', n, [id])
  {
  }

  /** The state once a new value is in the buffer. */
  function Pushed(s: State, value: int, from: Option<nat>, n: nat): State
    requires from.Some? ==> from.value in s.recs && s.recs[from.value].Send?
  {
    s.(submitted := s.submitted + [Submission(value, from)], buffer := s.buffer + [Item(|s.submitted|, value)],
       recs := Ticketed(s, from, Claimed(n, AsValue)), tasks := s.tasks[n := Ids(from)])
  }

  lemma PushedCore(s: State, value: int, from: Option<nat>, n: nat)
    requires Core(s) && n !in s.tasks && s.sends == []
    requires from.Some? ==> from.value in s.recs && s.recs[from.value].Send? && s.recs[from.value].place.Ready?
                            && s.recs[from.value].value == value
    ensures Core(Pushed(s, value, from, n))
  {
    hide Core, Gains;
    GainsNew(s, Pushed(s, value, from, n), n, Ids(from));
    PushNew(s, value, from, n, Pushed(s, value, from, n));
  }

  /** A new value goes straight to the first waiting receiver: into the buffer and out again. */
  lemma HandOver(s: State, value: int, from: Option<nat>, n: nat, s': State)
    requires Core(s) && s.recvs != [] && s.recheck.None? && n !in s.tasks && s.buffer == [] && s.sends == []
    requires from.Some? ==> from.value in s.recs && s.recs[from.value].Send? && s.recs[from.value].place.Ready?
                            && s.recs[from.value].value == value
    requires s.recvs[0] in s.recs && s.recs[s.recvs[0]].Recv?
    requires var mid := Pushed(s, value, from, n);
      && s'.tasks == s.tasks[n := [s.recvs[0]] + Ids(from)]
      && s'.recs == Prepared(mid, Some(s.recvs[0]), n)
      && s' == mid.(buffer := [], recvs := s.recvs[1..], recs := s'.recs, tasks := s'.tasks,
                    received := s.received + [Delivery(mid.buffer[0], Some(s.recvs[0]))])
    ensures Core(s')
  {
    RecvHead(s);
    hide Core, Gains, Prepared;
    PushedCore(s, value, from, n);
    var mid := Pushed(s, value, from, n);
    var recv := s.recvs[0];
    assert mid.recs[recv] == s.recs[recv];
    assert s'.tasks == mid.tasks[n := [recv] + Ids(from)];
    GainsOne(mid, s', n, recv, [recv] + Ids(from));
    HandOut(mid, n, s');
  }

  lemma HandOut(mid: State, n: nat, s': State)
    requires Core(mid) && mid.recvs != [] && |mid.buffer| == 1 && mid.recheck.None?
    requires mid.recvs[0] in mid.recs && mid.recs[mid.recvs[0]].Recv? && mid.recs[mid.recvs[0]].place.Pending?
    requires Distinct(mid.recvs) && Gains(mid, s', n, [mid.recvs[0]])
    requires s'.recs == Prepared(mid, Some(mid.recvs[0]), n)
    requires s' == mid.(buffer := [], recvs := mid.recvs[1..], recs := s'.recs, tasks := s'.tasks,
                        received := mid.received + [Delivery(mid.buffer[0], Some(mid.recvs[0]))])
    ensures Core(s')
  {
    TailIs(mid.recvs);
    hide Core, Gains, Distinct, Prepared;
    TakeHead(mid, Some(mid.recvs[0]), n, s');
  }

  lemma StartSendInv(s: State, id: nat, grows: bool, n: nat)
    requires Inv(s) && Known(s) && Enabled(s, DoStartSend(id, grows, n))
    ensures Core(StartSend(s, id, grows, n))
  {
    hide Core, Gains;
    var s' := StartSend(s, id, grows, n);
    var r := s.recs[id];
    if s.stopped || s.closed || StopRequested(r) {
      GainsNew(s, s', n, [id]);
      assert s'.recs == Ticketed(s, Some(id), Claimed(n, AsStopped));
      RefuseNew(s, r.value, Some(id), AsStopped, n, s');
    } else if s.recvs != [] {
      StartSendHands(s, id, grows, n);
    } else if s.sends == [] && |s.buffer| < s.capacity {
      GainsNew(s, s', n, [id]);
      assert s'.recs == Ticketed(s, Some(id), Claimed(n, if grows then AsValue else AsError));
      if grows { PushNew(s, r.value, Some(id), n, s'); }
      else { RefuseNew(s, r.value, Some(id), AsError, n, s'); }
    } else {
      QueueSend(s, id, s');
    }
  }

  lemma StartSendHands(s: State, id: nat, grows: bool, n: nat)
    requires Inv(s) && Known(s) && Enabled(s, DoStartSend(id, grows, n)) && s.recvs != []
    requires !s.stopped && !s.closed && !StopRequested(s.recs[id])
    ensures Core(StartSend(s, id, grows, n))
  {
    hide Core;
    var s' := StartSend(s, id, grows, n);
    var recv := s.recvs[0];
    assert recv in s.recvs;
    assert [recv] + Ids(Some(id)) == [recv, id];
    assert s'.recs == Prepared(Pushed(s, s.recs[id].value, Some(id), n), Some(recv), n);
    HandOver(s, s.recs[id].value, Some(id), n, s');
  }

  lemma TrySendInv(s: State, value: int, grows: bool, n: nat)
    requires Inv(s) && Known(s) && Enabled(s, DoTrySend(value, grows, n))
    ensures Core(TrySend(s, value, grows, n))
  {
    var s' := TrySend(s, value, grows, n);
    hide Core;
    if !s.stopped && !s.closed && s.recvs != [] {
      assert s.recvs[0] in s.recvs;
      assert [s.recvs[0]] + Ids(None) == [s.recvs[0]];
      HandOver(s, value, None, n, s');
    } else if !s.stopped && !s.closed && s.sends == [] && |s.buffer| < s.capacity && grows {
      PushNew(s, value, None, n, s');
    } else {
      RefuseNew(s, value, None, AsStopped, n, s');
    }
  }

  /** promote_one_send_locked, for a task `n` that already has some calls to make. */
  lemma PromoteCore(s: State, grows: bool, n: nat, s': State)
    requires Core(s) && s.recheck.None? && n in s.tasks && (s.sends != [] ==> s.sends[0] in s.recs)
    requires s' == Promote(s, grows, n).(tasks := s.tasks[n := s.tasks[n] + Promoted(s)])
    ensures Core(s')
  {
    if s.sends == [] || |s.buffer| >= s.capacity {
      assert s.tasks[n] + [] == s.tasks[n];
      assert s' == s;
    } else {
      SendHead(s);
      var id := s.sends[0];
      PromoteGains(s, n, s');
      hide Core, Gains;
      if grows {
        MoveIn(s, n, s');
      } else {
        assert Without(s.sends, id) == s.sends[1..];
        assert id !in s.recvs by { NotBoth(s, id); }
        WithoutAbsent(s.recvs, id);
        GiveUp(s, id, n, AsError, s');
      }
    }
  }

  lemma NotBoth(s: State, id: nat)
    requires Core(s) && id in s.sends
    ensures id !in s.recvs
  {
  }

  lemma PromoteGains(s: State, n: nat, s': State)
    requires Core(s) && n in s.tasks && s.sends != []
    requires s'.tasks == s.tasks[n := s.tasks[n] + [s.sends[0]]]
    ensures Gains(s, s', n, [s.sends[0]])
  {
    assert TaskOk(s, n) && s.sends[0] in s.sends;
    assert s.sends[0] !in s.tasks[n];
  }

  lemma ReadyIsNotQueued(s: State, id: nat)
    requires Core(s) && id in s.recs && !s.recs[id].place.Pending?
    ensures id !in s.recvs && id !in s.sends && (s.recheck.Some? ==> s.recheck.value != id)
    ensures Distinct(s.recvs)
  {
  }

  lemma StartRecvInv(s: State, id: nat, grows: bool, n: nat)
    requires Inv(s) && Known(s) && Enabled(s, DoStartRecv(id, grows, n))
    ensures Core(StartRecv(s, id, grows, n))
  {
    hide Core, Gains;
    var s' := StartRecv(s, id, grows, n);
    ReadyIsNotQueued(s, id);
    if s.buffer != [] {
      RecvBuffered(s, Some(id), grows, n, s') by {
        assert s'.tasks == s.tasks[n := Ids(Some(id)) + Promoted(Took(s, Some(id), n))];
      }
    } else if s.sends != [] {
      var head := s.sends[0];
      assert head in s.sends;
      assert Ids(Some(id)) + [head] == [id, head];
      TakePending(s, Some(id), n, s');
    } else if s.stopped || s.closed || StopRequested(s.recs[id]) {
      WithoutAbsent(s.recvs, id);
      GainsNew(s, s', n, [id]);
      GiveUp(s, id, n, AsStopped, s');
    } else {
      QueueRecv(s, id, s');
    }
  }

  /** The state right after taking the head of the buffer, before promoting a send. */
  function Took(s: State, to: Option<nat>, n: nat): State
    requires s.buffer != [] && (to.Some? ==> to.value in s.recs && s.recs[to.value].Recv?)
  {
    s.(buffer := s.buffer[1..], received := s.received + [Delivery(s.buffer[0], to)],
       recs := Prepared(s, to, n), tasks := s.tasks[n := Ids(to)])
  }

  lemma RecvBuffered(s: State, to: Option<nat>, grows: bool, n: nat, s': State)
    requires Core(s) && s.recheck.None? && n !in s.tasks && s.buffer != [] && Distinct(s.recvs)
    requires to.Some? ==> to.value in s.recs && s.recs[to.value].Recv? && s.recs[to.value].place.Ready?
                          && to.value !in s.recvs
    requires s.sends != [] ==> s.sends[0] in s.recs
    requires s' == Promote(Took(s, to, n), grows, n).(tasks := s.tasks[n := Ids(to) + Promoted(Took(s, to, n))])
    ensures Core(s')
  {
    hide Core, Gains, Promote;
    var mid := Took(s, to, n);
    GainsNew(s, mid, n, Ids(to));
    TakeHead(s, to, n, mid);
    assert mid.tasks[n := mid.tasks[n] + Promoted(mid)] == s'.tasks;
    PromoteCore(mid, grows, n, s');
  }

  /** A receive with an empty buffer takes the value of the first queued send. */
  lemma TakePending(s: State, to: Option<nat>, n: nat, s': State)
    requires Core(s) && s.sends != [] && s.buffer == [] && s.recheck.None? && n !in s.tasks
    requires s.sends[0] in s.recs && s.recs[s.sends[0]].Send? && Distinct(s.recvs)
    requires to.Some? ==> to.value in s.recs && s.recs[to.value].Recv? && s.recs[to.value].place.Ready?
                          && to.value !in s.recvs
    requires s'.tasks == s.tasks[n := Ids(to) + [s.sends[0]]]
    requires s'.recs == Prepared(s.(buffer := [ItemOf(s.recs, s.sends[0])]), to, n)[s.sends[0] :=
                          Moved(s.recs[s.sends[0]], Claimed(n, AsValue))]
    requires s' == s.(sends := s.sends[1..], tasks := s'.tasks, recs := s'.recs,
                      received := s.received + [Delivery(ItemOf(s.recs, s.sends[0]), to)])
    ensures Core(s')
  {
    hide Core, Gains;
    var id := s.sends[0];
    var mid := s.(buffer := [ItemOf(s.recs, id)], sends := s.sends[1..], tasks := s.tasks[n := [id]],
                  recs := s.recs[id := Moved(s.recs[id], Claimed(n, AsValue))]);
    GainsNew(s, mid, n, [id]);
    MoveIn(s, n, mid);
    assert s'.recs == Prepared(mid, to, n);
    assert s'.tasks == mid.tasks[n := Ids(to) + [id]];
    if to.Some? { GainsOne(mid, s', n, to.value, Ids(to) + [id]); }
    else {
      assert Ids(to) + [id] == [id];
      assert s'.tasks == mid.tasks;
      NoGain(mid, s', n);
    }
    hide Distinct;
    TakeHead(mid, to, n, s');
  }

  lemma NoGain(s: State, s': State, n: nat)
    requires s'.tasks == s.tasks
    ensures Gains(s, s', n, [])
  {
  }

  lemma TryRecvInv(s: State, grows: bool, n: nat)
    requires Inv(s) && Known(s) && Enabled(s, DoTryRecv(grows, n))
    ensures Core(TryRecv(s, grows, n))
  {
    var s' := TryRecv(s, grows, n);
    assert Distinct(s.recvs);
    hide Core;
    if s.buffer != [] {
      assert s.sends != [] ==> s.sends[0] in s.sends;
      TryRecvBuffered(s, grows, n);
    } else if s.sends != [] {
      assert s.sends[0] in s.sends;
      assert Ids(None) + [s.sends[0]] == [s.sends[0]];
      TakePending(s, None, n, s');
    }
  }

  lemma TryRecvBuffered(s: State, grows: bool, n: nat)
    requires Core(s) && Known(s) && Enabled(s, DoTryRecv(grows, n)) && s.buffer != [] && Distinct(s.recvs)
    requires s.sends != [] ==> s.sends[0] in s.recs
    ensures Core(TryRecv(s, grows, n))
  {
    hide Core, Distinct;
    var s' := TryRecv(s, grows, n);
    var mid := Took(s, None, n);
    var s0 := s.(buffer := s.buffer[1..], received := s.received + [Delivery(s.buffer[0], None)]);
    assert Promoted(mid) == Promoted(s0) && Ids(None) + Promoted(mid) == Promoted(s0);
    assert s' == Promote(mid, grows, n).(tasks := s'.tasks);
    RecvBuffered(s, None, grows, n, s');
  }

  /** A queued record is taken out of its queue and will be completed with stopped. */
  lemma StopOneCore(s: State, id: nat, n: nat)
    requires Core(s) && id in s.recs && n !in s.tasks && s.recheck != Some(id)
    requires s.recs[id].place.Pending?
    ensures Core(StopOne(s, id, n))
  {
    PendingIsQueued(s, id);
    hide Core, Gains;
    var s' := StopOne(s, id, n);
    if s.recs[id].Send? { WithoutAbsent(s.recvs, id); } else { WithoutAbsent(s.sends, id); }
    hide Without;
    GainsNew(s, s', n, [id]);
    GiveUp(s, id, n, AsStopped, s');
  }

  lemma PendingIsQueued(s: State, id: nat)
    requires Core(s) && id in s.recs && s.recs[id].place.Pending?
    ensures id in s.sends <==> s.recs[id].Send?
    ensures id in s.recvs <==> s.recs[id].Recv?
  {
    assert Placed(s, id);
  }

  lemma RecheckInv(s: State, n: nat)
    requires Inv(s) && Known(s) && Enabled(s, DoRecheck(n))
    ensures Core(Recheck(s, n))
  {
    var mid := s.(recheck := None);
    assert Core(mid) by { UnlockCore(s, mid); }
    assert s.recs[s.recheck.value].place.Pending?;
    hide Core;
    if StopRequested(s.recs[s.recheck.value]) {
      StopOneCore(mid, s.recheck.value, n);
    }
  }

  lemma UnlockCore(s: State, s': State)
    requires Core(s) && s' == s.(recheck := None)
    ensures Core(s')
  {
    UnlockPlaces(s, s');
    hide Places;
    ConservedFrame(s, s');
    TakenGrows(s, s');
    OutcomesFrame(s, s', {});
  }

  lemma UnlockPlaces(s: State, s': State)
    requires Places(s) && s' == s.(recheck := None)
    ensures Places(s')
  {
    forall t | t in s'.tasks ensures TaskOk(s', t) {
      assert TaskOk(s, t);
    }
    forall id | id in s'.recs ensures Placed(s', id) {
      assert Placed(s, id);
    }
  }

  /** Only the callback of one record moves on. */
  lemma CallbackMoves(s: State, id: nat, cb: Callback, s': State)
    requires Core(s) && id in s.recs && (s.recs[id].place.Pending? ==> !cb.Fired?) && !s.recs[id].place.Created?
    requires s' == s.(recs := s.recs[id := WithCallback(s.recs[id], cb)])
    ensures Core(s')
  {
    hide Places, CalledOnce, Conserved, Outcomes;
    Background(s, s', {});
  }

  lemma CancelInv(s: State, id: nat, n: nat)
    requires Inv(s) && Known(s) && Enabled(s, DoCancel(id, n))
    ensures Core(Cancel(s, id, n))
  {
    FlaggedIsPlaced(s, id);
    hide Core;
    if s.recs[id].place.Pending? {
      StopThenFire(s, id, n);
    } else {
      CallbackMoves(s, id, Fired, Cancel(s, id, n));
    }
  }

  lemma FlaggedIsPlaced(s: State, id: nat)
    requires Core(s) && id in s.recs && s.recs[id].cb.Flagged?
    ensures !s.recs[id].place.Created?
    ensures id in s.sends <==> s.recs[id].place.Pending? && s.recs[id].Send?
    ensures id in s.recvs <==> s.recs[id].place.Pending? && s.recs[id].Recv?
  {
    assert Placed(s, id);
  }

  /** Cancelling a queued record is stopping it and then retiring its callback. */
  lemma StopThenFire(s: State, id: nat, n: nat)
    requires Inv(s) && Known(s) && Enabled(s, DoCancel(id, n)) && s.recs[id].place.Pending?
    requires id in (if s.recs[id].Send? then s.sends else s.recvs)
    ensures Core(Cancel(s, id, n))
  {
    hide Core, Known, Without;
    var mid := StopOne(s, id, n);
    var s' := Cancel(s, id, n);
    StopOneCore(s, id, n);
    assert s'.recs == mid.recs[id := WithCallback(mid.recs[id], Fired)];
    CallbackMoves(mid, id, Fired, s');
  }

  lemma StartFailsInv(s: State, id: nat, n: nat)
    requires Inv(s) && Known(s) && Enabled(s, DoStartFails(id, n))
    ensures Core(StartFails(s, id, n))
  {
    hide Core, Gains, Known;
    var s' := StartFails(s, id, n);
    ReadyIsNotQueued(s, id);
    WithoutAbsent(s.sends, id);
    WithoutAbsent(s.recvs, id);
    GainsNew(s, s', n, [id]);
    GiveUp(s, id, n, AsStopped, s');
  }

  lemma CreateInv(s: State, id: nat, rec: Rec)
    requires Core(s) && Enabled(s, DoCreate(id, rec))
    ensures Core(s.(recs := s.recs[id := rec]))
  {
    hide Places, CalledOnce, Conserved, Outcomes;
    Background(s, s.(recs := s.recs[id := rec]), {});
  }

  lemma InstallInv(s: State, id: nat, arms: bool)
    requires Core(s) && Enabled(s, DoInstall(id, arms))
    ensures Core(Install(s, id, arms))
  {
    hide Places, CalledOnce, Conserved, Outcomes;
    Background(s, Install(s, id, arms), {id});
  }

  lemma RaiseFlagInv(s: State, id: nat)
    requires Core(s) && Enabled(s, DoRaiseFlag(id))
    ensures Core(RaiseFlag(s, id))
  {
    CallbackMoves(s, id, Flagged, RaiseFlag(s, id));
  }

  // ----- Bounds

  lemma SendBounds(s: State, step: Step)
    requires Bounds(s) && Known(s) && Enabled(s, step) && (step.DoStartSend? || step.DoTrySend?)
    ensures Bounds(Apply(s, step))
  {
  }

  lemma RecvBounds(s: State, step: Step)
    requires Bounds(s) && Known(s) && Enabled(s, step) && (step.DoStartRecv? || step.DoTryRecv?)
    ensures Bounds(Apply(s, step))
  {
    assert s.sends != [] ==> s.sends[0] in s.sends;
  }

  lemma OtherBounds(s: State, step: Step)
    requires Bounds(s) && Known(s) && Enabled(s, step)
    requires !step.DoStartSend? && !step.DoTrySend? && !step.DoStartRecv? && !step.DoTryRecv?
    ensures Bounds(Apply(s, step))
  {
  }

  // ----- Every step, every run

  lemma StepCore(s: State, step: Step)
    requires Inv(s) && Known(s) && Enabled(s, step)
    ensures Core(Apply(s, step))
  {
    hide Core, Bounds, Known;
    match step
    case DoCreate(id, rec) => CreateInv(s, id, rec);
    case DoInstall(id, arms) => InstallInv(s, id, arms);
    case DoStartFails(id, n) => StartFailsInv(s, id, n);
    case DoRaiseFlag(id) => RaiseFlagInv(s, id);
    case DoStartSend(id, grows, n) => StartSendInv(s, id, grows, n);
    case DoStartRecv(id, grows, n) => StartRecvInv(s, id, grows, n);
    case DoRecheck(n) => RecheckInv(s, n);
    case DoTrySend(value, grows, n) => TrySendInv(s, value, grows, n);
    case DoTryRecv(grows, n) => TryRecvInv(s, grows, n);
    case DoClose(n) => Detach(s, n, AsPrepared, Close(s, n));
    case DoRequestStop(n) => Detach(s, n, AsStopped, RequestStop(s, n));
    case DoCancel(id, n) => CancelInv(s, id, n);
    case DoRunNext(t) => RunNextCore(s, t);
  }

  lemma StepInv(s: State, step: Step)
    requires Inv(s) && Enabled(s, step)
    ensures Known(s) && Inv(Apply(s, step))
  {
    InvKnown(s);
    hide Core, Bounds, Known, Apply, Enabled;
    StepCore(s, step);
    if step.DoStartSend? || step.DoTrySend? { SendBounds(s, step); }
    else if step.DoStartRecv? || step.DoTryRecv? { RecvBounds(s, step); }
    else { OtherBounds(s, step); }
  }

  /** The invariant holds in every state of every run. */
  lemma {:induction false} RunInv(run: seq<State>, steps: seq<Step>, k: nat)
    requires IsRun(run, steps) && k < |run|
    ensures Inv(run[k])
  {
    hide Inv, Known, Apply, Enabled;
    if k == 0 {
      InitInv(run[0].capacity);
    } else {
      RunInv(run, steps, k - 1);
      StepInv(run[k - 1], steps[k - 1]);
    }
  }
}
