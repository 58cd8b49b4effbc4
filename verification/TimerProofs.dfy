/**
  What every step of the timer context keeps, and what that means for whole runs.
 */
module TimerProofs {
  import opened Timer

  lemma InitInv(now: int)
    ensures Inv(Init(now))
  {
  }

  lemma InvSound(s: State)
    requires Inv(s)
    ensures Sound(s)
  {
  }

  lemma RemoveAtIs(items: seq<nat>, k: nat)
    requires k < |items| && Distinct(items)
    ensures Distinct(RemoveAt(items, k)) && |RemoveAt(items, k)| == |items| - 1
    ensures forall x :: x in RemoveAt(items, k) <==> x in items && x != items[k]
  {
    var r := RemoveAt(items, k);
    assert items == items[..k] + [items[k]] + items[k + 1..];
    forall x | x in items && x != items[k] ensures x in r {
      var j :| 0 <= j < |items| && items[j] == x;
      if j < k { assert r[j] == x; } else { assert r[j - 1] == x; }
    }
  }

  // ----- One operation at a time

  lemma StartInlineOp(op: Op, id: nat, w: Worker, th: Thread, hasItem: bool)
    requires OpOk(op, id, false, w) && op.start.NotStarted? && op.life.Alive?
    ensures OpOk(op.(hasItem := hasItem, start := Inline(th, ToPublish)), id, false, w)
  {
  }

  lemma HandedOp(op: Op, id: nat, w: Worker)
    requires OpOk(op, id, false, w) && op.start.NotStarted? && op.life.Alive?
    ensures OpOk(op.(hasItem := true, start := Handed), id, true, w)
  {
  }

  lemma InlineOp(op: Op, op': Op, id: nat, w: Worker)
    requires OpOk(op, id, false, w) && op.start.Inline?
    requires var th := op.start.th;
      op' == match op.start.stage
             case ToPublish => Publish(op, th).(start := Inline(th, ToClaim))
             case ToClaim => ClaimOp(op).(start := Inline(th, AfterClaim(op)))
             case Invoking => op.(start := Inline(th, ToFinish))
             case ToFinish => op.(delivered := op.hasItem, start := InlineOver(th))
    ensures OpOk(op', id, false, w)
  {
  }

  lemma TakenOp(op: Op, id: nat, w: Worker, asStopped: bool)
    requires OpOk(op, id, true, w) && w.Looking?
    ensures OpOk(op, id, false, Delivering(id, asStopped, ToPublish))
  {
  }

  /** The worker, not inside a destructor, moves from one stage of its delivery to the next. */
  lemma DeliverOp(op: Op, op': Op, id: nat, w: Worker, w': Worker)
    requires OpOk(op, id, false, w) && op.start.Handed? && Holds(w, id)
    requires op.life != Claimed(WORKER) && op.life != Waiting(WORKER)
    requires match w.stage
             case ToPublish => op' == Publish(op, WORKER) && w' == w.(stage := ToClaim)
             case ToClaim => op' == ClaimOp(op) && w' == w.(stage := AfterClaim(op))
             case Invoking => op' == op && w' == w.(stage := ToFinish)
             case ToFinish => op' == op.(delivered := true) && w' == ToDecrement(id)
    ensures OpOk(op', id, false, w') && op'.start.Handed?
  {
  }

  lemma DestroyOp(op: Op, op': Op, id: nat, th: Thread, queued: bool, w: Worker)
    requires OpOk(op, id, queued, w) && op.life.Alive? && (th == WORKER ==> InReceiver(w))
    requires op.start.Inline? ==> !op.start.stage.ToPublish? && !op.start.stage.ToClaim?
                                  && (op.start.th == th ==> op.start.stage.Invoking?)
    requires op' == if !op.hasItem then op.(life := Gone(th))
                    else if Done(op) then
                      if op.publisher == Some(th) then op.(life := Gone(th)) else op.(life := Waiting(th))
                    else op.(winner := Destructor, life := Claimed(th))
    ensures OpOk(op', id, queued, w) && (op'.winner.Completer? == op.winner.Completer?)
  {
  }

  lemma DiscardOp(op: Op, id: nat, queued: bool, w: Worker)
    requires OpOk(op, id, queued, w) && op.life.Claimed?
    ensures queued ==> OpOk(op.(life := Gone(op.life.th), discarded := true), id, false, w)
    ensures !queued ==> OpOk(op.(life := Waiting(op.life.th)), id, false, w)
  {
  }

  lemma WaitOverOp(op: Op, id: nat, queued: bool, w: Worker)
    requires OpOk(op, id, queued, w) && op.life.Waiting? && op.delivered
    ensures OpOk(op.(life := Gone(op.life.th)), id, queued, w)
  {
  }

  /** An operation the worker has not in its hands does not mind its moves. */
  lemma BystanderOp(op: Op, id: nat, queued: bool, w: Worker, w': Worker)
    requires OpOk(op, id, queued, w) && !Holds(w, id) && !Holds(w', id)
    requires InReceiver(w) ==> op.life != Claimed(WORKER) && op.life != Waiting(WORKER)
    ensures OpOk(op, id, queued, w')
  {
  }

  // ----- All operations

  /** Only operation `id` differs. */
  predicate OnlyOp(s: State, s': State, id: nat) {
    id in s'.ops && s'.ops == s.ops[id := s'.ops[id]]
  }

  /** One operation changes; the worker and the rest stay. */
  lemma OneChanges(s: State, s': State, id: nat)
    requires Ops(s) && OnlyOp(s, s', id)
    requires forall x | x != id :: x in s'.items <==> x in s.items
    requires s'.worker == s.worker && OpOk(s'.ops[id], id, id in s'.items, s.worker)
    ensures Ops(s')
  {
    hide OpOk;
  }

  /** The worker moves, and with it at most the operation it has in its hands. */
  lemma WorkerChanges(s: State, s': State, id: nat)
    requires Ops(s) && OnlyOp(s, s', id)
    requires forall x | x != id :: x in s'.items <==> x in s.items
    requires OpOk(s'.ops[id], id, id in s'.items, s'.worker)
    requires !InReceiver(s.worker) || WorkerFree(s)
    requires forall x | x != id :: !Holds(s.worker, x) && !Holds(s'.worker, x)
    ensures Ops(s')
  {
    forall x | x in s'.ops && x != id ensures OpOk(s'.ops[x], x, x in s'.items, s'.worker) {
      BystanderOp(s.ops[x], x, x in s.items, s.worker, s'.worker);
    }
  }

  lemma CallsFrame(s: State, s': State)
    requires CallsOk(s) && s'.calls == s.calls && s.now <= s'.now && s.ops.Keys <= s'.ops.Keys
    requires forall x | x in s.ops :: s'.ops[x].winner.Completer? == s.ops[x].winner.Completer?
    requires forall x | x in s.ops :: s'.ops[x].deadline == s.ops[x].deadline
    requires forall x | x in s'.ops && x !in s.ops :: s'.ops[x].winner.Nobody?
    ensures CallsOk(s')
  {
    forall x | x in s'.ops && s'.ops[x].winner.Completer? ensures Called(s', x) {
      assert Called(s, x);
    }
  }

  lemma CallsOne(s: State, s': State, id: nat)
    requires CallsOk(s) && OnlyOp(s, s', id) && s'.calls == s.calls && s.now == s'.now
    requires id in s.ops ==> s'.ops[id].winner.Completer? == s.ops[id].winner.Completer?
                             && s'.ops[id].deadline == s.ops[id].deadline
    requires id !in s.ops ==> s'.ops[id].winner.Nobody?
    ensures CallsOk(s')
  {
    CallsFrame(s, s');
  }

  lemma BaseOne(s: State, s': State, id: nat)
    requires Base(s) && OnlyOp(s, s', id) && s'.items == s.items && s'.pending == s.pending && s'.worker == s.worker
    requires s'.stop == s.stop && s'.now == s.now
    requires id in s.ops ==> s'.ops[id].deadline == s.ops[id].deadline
                             && (s.ops[id].start.Handed? ==> s'.ops[id].start.Handed?)
                             && (s.ops[id].delivered ==> s'.ops[id].delivered)
    ensures Base(s')
  {
    hide Distinct;
  }

  /** A completer wins the claim on `id` and runs its receiver. */
  lemma CallsLog(s: State, s': State, id: nat, asStopped: bool)
    requires CallsOk(s) && id in s.ops && !Done(s.ops[id])
    requires OnlyOp(s, s', id) && s'.ops[id].winner.Completer?
    requires s'.ops[id].deadline == s.ops[id].deadline && s'.now == s.now
    requires s'.calls == s.calls + [Call(id, asStopped)] && (asStopped || s.ops[id].deadline <= s.now)
    ensures CallsOk(s')
  {
    forall x | x in s'.ops && s'.ops[x].winner.Completer? ensures Called(s', x) {
      if x == id {
        assert s'.calls[|s.calls|].id == id;
      } else {
        assert Called(s, x);
        var k :| 0 <= k < |s.calls| && s.calls[k].id == x;
        assert s'.calls[k].id == x;
      }
    }
  }

  lemma OpFacts(s: State, id: nat)
    requires Ops(s) && id in s.ops
    ensures OpOk(s.ops[id], id, id in s.items, s.worker)
    ensures id in s.items ==> s.ops[id].start.Handed?
  {
  }

  // ----- One lemma per step

  lemma CreateInv(s: State, id: nat, deadline: int)
    requires Inv(s) && Enabled(s, DoCreate(id, deadline)) && Sound(s)
    ensures Inv(Apply(s, DoCreate(id, deadline)))
  {
    var s' := Apply(s, DoCreate(id, deadline));
    hide Ops, CallsOk;
    hide Base;
    OneChanges(s, s', id);
    BaseOne(s, s', id);
    CallsOne(s, s', id);
  }

  lemma StartInlineInv(s: State, id: nat, th: Thread, hasItem: bool)
    requires Inv(s) && id in s.ops && s.ops[id].start.NotStarted? && s.ops[id].life.Alive?
    ensures Inv(StartInline(s, id, th, hasItem))
  {
    var s' := StartInline(s, id, th, hasItem);
    OpFacts(s, id);
    hide Ops, CallsOk, OpOk;
    StartInlineOp(s.ops[id], id, s.worker, th, hasItem);
    hide Base;
    OneChanges(s, s', id);
    BaseOne(s, s', id);
    CallsOne(s, s', id);
  }

  lemma StartEnqueueInv(s: State, id: nat, th: Thread)
    requires Inv(s) && id in s.ops && s.ops[id].start.NotStarted? && s.ops[id].life.Alive?
    ensures Inv(StartEnqueue(s, id, th))
  {
    if s.stop {
      StartInlineInv(s, id, th, true);
    } else {
      var s' := StartEnqueue(s, id, th);
      OpFacts(s, id);
      hide Ops, CallsOk, OpOk;
      HandedOp(s.ops[id], id, s.worker);
      HandedBase(s, id, s');
      hide Base;
      OneChanges(s, s', id);
      CallsFrame(s, s');
    }
  }

  lemma HandedBase(s: State, id: nat, s': State)
    requires Base(s) && id in s.ops && id !in s.items && s.ops[id].start.NotStarted? && !s.stop
    requires OnlyOp(s, s', id) && s'.ops[id] == s.ops[id].(hasItem := true, start := Handed)
    requires s' == s.(ops := s'.ops, items := s.items + [id], pending := s.pending + 1)
    ensures Base(s')
  {
  }

  lemma InlineStepInv(s: State, id: nat)
    requires Inv(s) && id in s.ops && s.ops[id].start.Inline?
    ensures Inv(InlineStep(s, id))
  {
    var s' := InlineStep(s, id);
    OpFacts(s, id);
    hide Ops, CallsOk, OpOk;
    InlineOp(s.ops[id], s'.ops[id], id, s.worker);
    hide Base;
    OneChanges(s, s', id);
    BaseOne(s, s', id);
    if s.ops[id].start.stage.ToClaim? && !Done(s.ops[id]) { CallsLog(s, s', id, true); } else { CallsOne(s, s', id); }
  }

  lemma TakeInv(s: State)
    requires Inv(s) && s.worker.Looking? && Sound(s)
    ensures Inv(Take(s))
  {
    var s' := Take(s);
    var c := Pick(s);
    PickInRange(s);
    hide Pick;
    if c.TakeStopped? || c.TakeValue? {
      TakeOne(s, s', c.at, c.TakeStopped?);
    } else {
      hide CallsOk, OpOk;
      CallsFrame(s, s');
      if c.Exit? { ExitOps(s, s'); }
    }
  }

  lemma ExitOps(s: State, s': State)
    requires Ops(s) && s.worker.Looking? && s' == s.(worker := Exited)
    ensures Ops(s')
  {
    forall x | x in s'.ops ensures OpOk(s'.ops[x], x, x in s'.items, s'.worker) {
      assert OpOk(s.ops[x], x, x in s.items, s.worker);
    }
  }

  /** What the worker takes: see Pick. */
  lemma PickInRange(s: State)
    requires Known(s.ops, s.items)
    ensures var c := Pick(s);
      && (c.Exit? ==> s.stop && s.items == [])
      && (c.TakeStopped? ==> c.at < |s.items|)
      && (c.TakeValue? ==> c.at < |s.items| && s.ops[s.items[c.at]].deadline <= s.now)
  {
  }

  lemma TakeOne(s: State, s': State, k: nat, asStopped: bool)
    requires Inv(s) && s.worker.Looking? && k < |s.items| && s.items[k] in s.ops
    requires asStopped || s.ops[s.items[k]].deadline <= s.now
    requires s' == s.(items := RemoveAt(s.items, k), worker := Delivering(s.items[k], asStopped, ToPublish))
    ensures Inv(s')
  {
    var id := s.items[k];
    RemoveAtIs(s.items, k);
    hide RemoveAt, Distinct;
    OpFacts(s, id);
    assert id in s.items;
    hide Ops, CallsOk, OpOk;
    TakenOp(s.ops[id], id, s.worker, asStopped);
    assert s'.ops == s.ops[id := s'.ops[id]];
    WorkerChanges(s, s', id);
    CallsFrame(s, s');
  }

  lemma DeliverInv(s: State)
    requires Inv(s) && s.worker.Delivering? && WorkerFree(s) && Sound(s)
    ensures Inv(Deliver(s))
  {
    var s' := Deliver(s);
    var id := s.worker.id;
    OpFacts(s, id);
    HeldIsNotQueued(s, id);
    assert s'.ops == s.ops[id := s'.ops[id]];
    DeliverBase(s);
    hide Ops, CallsOk, OpOk;
    DeliverOp(s.ops[id], s'.ops[id], id, s.worker, s'.worker);
    hide Base;
    WorkerChanges(s, s', id);
    if s.worker.stage.ToClaim? && !Done(s.ops[id]) {
      DeliverDue(s);
      CallsLog(s, s', id, s.worker.asStopped);
    } else {
      CallsOne(s, s', id);
    }
  }

  lemma DeliverBase(s: State)
    requires Base(s) && s.worker.Delivering? && s.worker.id in s.ops
    ensures Base(Deliver(s))
  {
    hide Distinct;
  }

  lemma DeliverDue(s: State)
    requires Base(s) && s.worker.Delivering?
    ensures s.worker.id in s.ops && (s.worker.asStopped || s.ops[s.worker.id].deadline <= s.now)
  {
  }

  lemma HeldIsNotQueued(s: State, id: nat)
    requires Ops(s) && id in s.ops && Holds(s.worker, id)
    ensures id !in s.items
  {
  }

  lemma DecrementInv(s: State)
    requires Inv(s) && s.worker.ToDecrement? && Sound(s)
    ensures Inv(Decrement(s))
  {
    var s' := Decrement(s);
    OpFacts(s, s.worker.id);
    BystanderOp(s.ops[s.worker.id], s.worker.id, s.worker.id in s.items, s.worker, Looking);
    hide Ops, CallsOk, OpOk;
    assert s'.ops == s.ops[s.worker.id := s.ops[s.worker.id]];
    WorkerChanges(s, s', s.worker.id);
    CallsFrame(s, s');
  }

  lemma DestroyInv(s: State, id: nat, th: Thread)
    requires Inv(s) && MayDestroy(s, id, th)
    ensures Inv(Destroy(s, id, th))
  {
    var s' := Destroy(s, id, th);
    OpFacts(s, id);
    hide Ops, CallsOk, OpOk;
    DestroyOp(s.ops[id], s'.ops[id], id, th, id in s.items, s.worker);
    hide Base;
    OneChanges(s, s', id);
    BaseOne(s, s', id);
    CallsOne(s, s', id);
  }

  lemma DiscardInv(s: State, id: nat)
    requires Inv(s) && id in s.ops && s.ops[id].life.Claimed? && Sound(s)
    ensures Inv(Discard(s, id))
  {
    var s' := Discard(s, id);
    var k := Position(s.items, id);
    OpFacts(s, id);
    DiscardOp(s.ops[id], id, id in s.items, s.worker);
    hide Ops, CallsOk, OpOk;
    if k < |s.items| {
      RemoveAtIs(s.items, k);
      hide RemoveAt, Distinct;
      OneChanges(s, s', id);
    } else {
      hide Base;
      OneChanges(s, s', id);
      BaseOne(s, s', id);
    }
    CallsOne(s, s', id);
  }

  lemma WaitOverInv(s: State, id: nat)
    requires Inv(s) && id in s.ops && s.ops[id].life.Waiting? && s.ops[id].delivered
    ensures Inv(WaitOver(s, id))
  {
    var s' := WaitOver(s, id);
    OpFacts(s, id);
    hide Ops, CallsOk, OpOk, Base;
    WaitOverOp(s.ops[id], id, id in s.items, s.worker);
    OneChanges(s, s', id);
    BaseOne(s, s', id);
    CallsOne(s, s', id);
  }

  lemma FlagInv(s: State, id: nat)
    requires Inv(s) && id in s.ops
    ensures Inv(SetOp(s, id, s.ops[id].(flagged := true)))
  {
    var s' := SetOp(s, id, s.ops[id].(flagged := true));
    OpFacts(s, id);
    hide Ops, CallsOk;
    hide Base;
    OneChanges(s, s', id);
    BaseOne(s, s', id);
    CallsOne(s, s', id);
  }

  lemma StepInv(s: State, step: Step)
    requires Inv(s) && Enabled(s, step)
    ensures Sound(s) && Inv(Apply(s, step))
  {
    InvSound(s);
    hide Base, Ops;
    match step
    case DoCreate(id, deadline) => CreateInv(s, id, deadline);
    case DoStartInline(id, th, hasItem) => StartInlineInv(s, id, th, hasItem);
    case DoStartEnqueue(id, th) => StartEnqueueInv(s, id, th);
    case DoInlineStep(id) => InlineStepInv(s, id);
    case DoFlag(id) => FlagInv(s, id);
    case DoShutdown => ClockInv(s, s.(stop := true));
    case DoTick(now) => ClockInv(s, s.(now := now));
    case DoTake => TakeInv(s);
    case DoDeliver => DeliverInv(s);
    case DoDecrement => DecrementInv(s);
    case DoDestroy(id, th) => DestroyInv(s, id, th);
    case DoDiscard(id) => DiscardInv(s, id);
    case DoWaitOver(id) => WaitOverInv(s, id);
  }

  lemma ClockInv(s: State, s': State)
    requires Inv(s) && s' == s.(stop := s'.stop, now := s'.now) && s.now <= s'.now && (s.stop ==> s'.stop)
    ensures Inv(s')
  {
    hide CallsOk, OpOk;
    CallsFrame(s, s');
  }

  /** The invariant holds in every state of every run. */
  lemma {:induction false} RunInv(run: seq<State>, steps: seq<Step>, k: nat)
    requires IsRun(run, steps) && k < |run|
    ensures Inv(run[k])
  {
    hide Inv, Sound, Apply, Enabled;
    if k == 0 {
      InitInv(run[0].now);
    } else {
      RunInv(run, steps, k - 1);
      StepInv(run[k - 1], steps[k - 1]);
    }
  }
}
