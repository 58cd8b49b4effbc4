/**
  What close and request_stop do, what becomes of the values and records they find, and how
  the completions a critical section promises are carried out.
 */
module ChannelClosing {
  import opened Channel
  import opened ChannelProofs
  import opened ChannelSteps
  import opened ChannelRuns
  import opened ChannelLaws
  import opened ChannelOutcomes

  // ----- The step itself

  /** Everybody queued is going to be stopped, receivers first, and the queued values are refused. */
  ghost predicate Cleared(s: State, s': State, n: nat) {
    && s'.sends == [] && s'.recvs == [] && s'.tasks == s.tasks[n := s.recvs + s.sends]
    && s'.received == s.received
    && (forall id | id in s.recvs || id in s.sends :: Promised(s', id, n, Stopped))
    && (forall id | id in s.sends :: ItemOf(s.recs, id).ticket in s'.refused)
  }

  lemma ClearRecs(s: State, n: nat, how: How)
    requires Places(s) && (how.AsPrepared? || how.AsStopped?)
    ensures var recs := ClaimAll(ClaimAll(s.recs, s.recvs, n, how), s.sends, n, AsStopped);
      forall id | id in s.recvs || id in s.sends ::
        && id in recs && recs[id].place.Claimed? && recs[id].place.task == n
        && (recs[id].place.how == how || recs[id].place.how.AsStopped?)
  {
    hide TaskOk, Placed, Distinct;
  }

  lemma TicketsOfQueue(recs: map<nat, Rec>, ids: seq<nat>, id: nat)
    requires id in ids
    ensures ItemOf(recs, id).ticket in Tickets(ItemsOf(recs, ids))
  {
    var k :| 0 <= k < |ids| && ids[k] == id;
    assert ItemsOf(recs, ids)[k] == ItemOf(recs, id);
  }

  /** close keeps the buffer; request_stop discards it.  Both clear the queues. */
  lemma ShutOutcome(run: seq<State>, steps: seq<Step>, k: nat)
    requires IsRun(run, steps) && k < |steps| && (steps[k].DoClose? || steps[k].DoRequestStop?)
    ensures Cleared(run[k], run[k + 1], steps[k].n)
    ensures if steps[k].DoClose? then run[k + 1].closed && run[k + 1].buffer == run[k].buffer
            else run[k + 1].stopped && run[k + 1].buffer == []
                 && forall i | 0 <= i < |run[k].buffer| :: run[k].buffer[i].ticket in run[k + 1].discarded
  {
    RunInv(run, steps, k);
    var s, n := run[k], steps[k].n;
    assert Places(s);
    ClearRecs(s, n, if steps[k].DoClose? then AsPrepared else AsStopped);
    forall id | id in s.sends ensures ItemOf(s.recs, id).ticket in Tickets(ItemsOf(s.recs, s.sends)) {
      TicketsOfQueue(s.recs, s.sends, id);
    }
    hide Core, ItemOf, ItemsOf, ClaimAll, Places, Bounds;
  }

  // ----- The values that are in

  lemma DrainStep(s: State, step: Step)
    requires Bounds(s) && Known(s) && Enabled(s, step) && s.closed && !step.DoRequestStop?
    ensures Taken(Apply(s, step)) == Taken(s)
  {
    hide Without, ItemsOf, ItemOf, ClaimAll, KindOf, Tickets;
    if step.DoStartRecv? || step.DoTryRecv? {
      if s.buffer != [] { ReceiveOne(s.received, s.buffer, if step.DoStartRecv? then Some(step.id) else None); }
    }
  }

  lemma ReceiveOne(received: seq<Delivery>, buffer: seq<Item>, to: Option<nat>)
    requires buffer != []
    ensures Items(received + [Delivery(buffer[0], to)]) + buffer[1..] == Items(received) + buffer
  {
  }

  /** After close, and until somebody stops the channel, the buffered values are received, in order, and nothing else is. */
  lemma {:induction false} DrainsAfterClose(run: seq<State>, steps: seq<Step>, j: nat, k: nat)
    requires IsRun(run, steps) && j <= k < |run| && run[j].closed
    requires forall i | j <= i < k :: !steps[i].DoRequestStop?
    ensures Items(run[k].received) + run[k].buffer == Items(run[j].received) + run[j].buffer
    decreases k
  {
    hide Inv, Known, Apply, Enabled;
    if j < k {
      DrainsAfterClose(run, steps, j, k - 1);
      ClosedStays(run, steps, j, k - 1);
      RunInv(run, steps, k - 1);
      InvBounds(run[k - 1]);
      DrainStep(run[k - 1], steps[k - 1]);
    }
  }

  lemma InvBounds(s: State)
    requires Inv(s)
    ensures Bounds(s)
  {
  }

  lemma ClosedStays(run: seq<State>, steps: seq<Step>, j: nat, k: nat)
    requires IsRun(run, steps) && j <= k < |run|
    ensures run[j].closed ==> run[k].closed
    ensures run[j].stopped ==> run[k].stopped
  {
    hide IsRun;
    ShutExactly(run, steps, j);
    ShutExactly(run, steps, k);
  }

  lemma SilentStep(s: State, step: Step)
    requires Bounds(s) && Known(s) && Enabled(s, step) && s.stopped
    ensures Apply(s, step).received == s.received
  {
    hide Without, ItemsOf, ItemOf, ClaimAll, KindOf, Tickets;
  }

  /** After request_stop nothing is ever received again. */
  lemma {:induction false} NothingReceivedAfterStop(run: seq<State>, steps: seq<Step>, j: nat, k: nat)
    requires IsRun(run, steps) && j <= k < |run| && run[j].stopped
    ensures run[k].received == run[j].received && run[k].buffer == []
    decreases k
  {
    hide Inv, Known, Apply, Enabled;
    ClosedStays(run, steps, j, k);
    WaitingReceiversSeeNothing(run, steps, k);
    if j < k {
      NothingReceivedAfterStop(run, steps, j, k - 1);
      ClosedStays(run, steps, j, k - 1);
      RunInv(run, steps, k - 1);
      InvBounds(run[k - 1]);
      SilentStep(run[k - 1], steps[k - 1]);
    }
  }

  // ----- Promises are kept

  /** A claimed record that its task has not called yet, or one that has been called with what was promised. */
  predicate Kept(s: State, id: nat, n: nat, kind: Kind) {
    Promised(s, id, n, kind) || (id in s.recs && s.recs[id].place == Done(kind))
  }

  /** No step but a completion call moves a record that is claimed or done. */
  ghost predicate Unmoved(s: State, s': State, id: nat)
    requires id in s.recs
  {
    id in s'.recs && s'.recs[id].place == s.recs[id].place
  }

  lemma SendMovesOthers(s: State, step: Step, id: nat)
    requires Places(s) && Known(s) && Enabled(s, step) && (step.DoStartSend? || step.DoTrySend?)
    requires id in s.recs && (s.recs[id].place.Claimed? || s.recs[id].place.Done?)
    ensures Unmoved(s, Apply(s, step), id)
  {
    if s.recvs != [] { assert s.recvs[0] in s.recvs; }
    hide TaskOk, Placed, Distinct, ItemOf;
  }

  /** Promotion moves at most the first queued send. */
  lemma PromoteMovesHead(s: State, grows: bool, n: nat, id: nat)
    requires id in s.recs && (s.sends != [] ==> s.sends[0] in s.recs)
    ensures var s' := Promote(s, grows, n);
      && id in s'.recs && s'.recs.Keys == s.recs.Keys
      && (s.sends == [] || id != s.sends[0] ==> s'.recs[id] == s.recs[id])
      && (s'.recs[id].place == s.recs[id].place || s'.recs[id].place == Claimed(n, if grows then AsValue else AsError))
  {
    hide ItemOf;
  }

  lemma RecvMovesOthers(s: State, step: Step, id: nat)
    requires Places(s) && Known(s) && Enabled(s, step) && step.DoStartRecv?
    requires id in s.recs && (s.recs[id].place.Claimed? || s.recs[id].place.Done?)
    ensures Unmoved(s, Apply(s, step), id)
  {
    if s.sends != [] { assert s.sends[0] in s.sends; }
    hide TaskOk, Placed, Distinct, ItemOf;
    if s.buffer != [] {
      PromoteMovesHead(Channel.Deliver(s.(buffer := s.buffer[1..]), s.buffer[0], step.id, step.n), step.grows, step.n, id);
    }
    hide Promote;
  }

  lemma TryRecvMovesOthers(s: State, step: Step, id: nat)
    requires Places(s) && Known(s) && Enabled(s, step) && step.DoTryRecv?
    requires id in s.recs && (s.recs[id].place.Claimed? || s.recs[id].place.Done?)
    ensures Unmoved(s, Apply(s, step), id)
  {
    if s.sends != [] { assert s.sends[0] in s.sends; }
    hide TaskOk, Placed, Distinct, ItemOf;
  }

  lemma ShutMovesOthers(s: State, step: Step, id: nat)
    requires Places(s) && Known(s) && Enabled(s, step) && (step.DoClose? || step.DoRequestStop?)
    requires id in s.recs && (s.recs[id].place.Claimed? || s.recs[id].place.Done?)
    ensures Unmoved(s, Apply(s, step), id)
  {
    hide TaskOk, Placed, Distinct, ItemOf, ItemsOf, Tickets;
  }

  lemma StopOneRecs(s: State, id: nat, n: nat)
    requires id in s.recs
    ensures StopOne(s, id, n).recs == s.recs[id := Moved(s.recs[id], Claimed(n, AsStopped))]
  {
  }

  /** What a second look or a stop callback does to the records. */
  lemma WithdrawRecs(s: State, step: Step)
    requires Known(s) && Enabled(s, step) && (step.DoRecheck? || step.DoCancel?)
    ensures var id := if step.DoRecheck? then s.recheck.value else step.id;
      && id in s.recs
      && var recs := Apply(s, step).recs;
         && recs.Keys == s.recs.Keys && (forall x | x in s.recs && x != id :: recs[x] == s.recs[x])
         && (recs[id].place == s.recs[id].place || recs[id].place == Claimed(step.n, AsStopped))
         && (step.DoCancel? && id !in s.sends && id !in s.recvs ==> recs[id].place == s.recs[id].place)
  {
    if step.DoRecheck? {
      StopOneRecs(s.(recheck := None), s.recheck.value, step.n);
    } else {
      StopOneRecs(s.(recs := s.recs[step.id := WithCallback(s.recs[step.id], Fired)]), step.id, step.n);
    }
    hide StopOne;
  }

  lemma WithdrawMovesOthers(s: State, step: Step, id: nat)
    requires Places(s) && Known(s) && Enabled(s, step) && (step.DoRecheck? || step.DoCancel?)
    requires id in s.recs && (s.recs[id].place.Claimed? || s.recs[id].place.Done?)
    ensures Unmoved(s, Apply(s, step), id)
  {
    WithdrawRecs(s, step);
    hide TaskOk, Placed, Distinct, Apply;
  }

  lemma RestMovesOthers(s: State, step: Step, id: nat)
    requires Places(s) && Known(s) && Enabled(s, step)
    requires !step.DoClose? && !step.DoRequestStop? && !step.DoRecheck? && !step.DoCancel?
    requires !step.DoStartSend? && !step.DoTrySend? && !step.DoStartRecv? && !step.DoTryRecv? && !step.DoRunNext?
    requires id in s.recs && (s.recs[id].place.Claimed? || s.recs[id].place.Done?)
    ensures Unmoved(s, Apply(s, step), id)
  {
    hide TaskOk, Placed, Distinct;
  }

  lemma KeptByCall(s: State, t: nat, id: nat, n: nat, kind: Kind)
    requires Inv(s) && Enabled(s, DoRunNext(t)) && Kept(s, id, n, kind)
    requires s.tasks[t][0] in s.recs
    ensures Kept(RunNext(s, t), id, n, kind)
  {
    assert TaskOk(s, t) && s.tasks[t][0] in s.tasks[t] && Outcome(s, id);
    hide Core, Bounds;
  }

  lemma KeptStep(s: State, step: Step, id: nat, n: nat, kind: Kind)
    requires Inv(s) && Known(s) && Enabled(s, step) && Kept(s, id, n, kind)
    ensures Kept(Apply(s, step), id, n, kind)
  {
    if step.DoRunNext? {
      assert s.tasks[step.t][0] in s.tasks[step.t];
      KeptByCall(s, step.t, id, n, kind);
    } else {
      assert Places(s);
      hide Inv, Known, Enabled, Apply, Places;
      if step.DoStartSend? || step.DoTrySend? { SendMovesOthers(s, step, id); }
      else if step.DoStartRecv? { RecvMovesOthers(s, step, id); }
      else if step.DoTryRecv? { TryRecvMovesOthers(s, step, id); }
      else if step.DoClose? || step.DoRequestStop? { ShutMovesOthers(s, step, id); }
      else if step.DoRecheck? || step.DoCancel? { WithdrawMovesOthers(s, step, id); }
      else { RestMovesOthers(s, step, id); }
    }
  }

  /** What a critical section promises a record is the only signal that record ever gets. */
  lemma {:induction false} PromiseKept(run: seq<State>, steps: seq<Step>, k: nat, l: nat, id: nat, n: nat, kind: Kind)
    requires IsRun(run, steps) && k <= l < |run| && Promised(run[k], id, n, kind)
    ensures Kept(run[l], id, n, kind)
    ensures forall i | 0 <= i < |run[l].calls| && run[l].calls[i].id == id :: run[l].calls[i].kind == kind
    decreases l
  {
    hide Inv, Known, Apply, Enabled, Promised;
    if k < l {
      PromiseKept(run, steps, k, l - 1, id, n, kind);
      RunInv(run, steps, l - 1);
      KeptStep(run[l - 1], steps[l - 1], id, n, kind);
    }
    RunInv(run, steps, l);
    KeptMeansCalled(run[l], id, n, kind);
  }

  lemma KeptMeansCalled(s: State, id: nat, n: nat, kind: Kind)
    requires Inv(s) && Kept(s, id, n, kind)
    ensures forall i | 0 <= i < |s.calls| && s.calls[i].id == id :: s.calls[i].kind == kind
  {
    assert CalledOnce(s);
  }

  // ----- Order of completions

  ghost predicate Ahead(q: seq<nat>, x: nat, y: nat) {
    exists i, j :: 0 <= i < j < |q| && q[i] == x && q[j] == y
  }

  ghost predicate CalledAt(s: State, id: nat, i: nat) { i < |s.calls| && s.calls[i].id == id }

  /** Task `t` has `x` ahead of `y`, or has called `x` and not `y`, or has called `x` first. */
  ghost predicate Before(s: State, t: nat, x: nat, y: nat) {
    || (t in s.tasks && Ahead(s.tasks[t], x, y))
    || (t in s.tasks && y in s.tasks[t] && exists i :: CalledAt(s, x, i))
    || (exists i, j :: i < j && CalledAt(s, x, i) && CalledAt(s, y, j))
  }

  /** Nothing is called, and every chain of pending calls stays as it is. */
  ghost predicate TasksKept(s: State, s': State) {
    s'.calls == s.calls && forall t | t in s.tasks :: t in s'.tasks && s'.tasks[t] == s.tasks[t]
  }

  lemma SendTasks(s: State, step: Step)
    requires Known(s) && Enabled(s, step) && (step.DoStartSend? || step.DoTrySend?)
    ensures TasksKept(s, Apply(s, step))
  {
    if s.recvs != [] { assert s.recvs[0] in s.recvs; }
    hide ItemOf;
  }

  lemma RecvTasks(s: State, step: Step)
    requires Known(s) && Enabled(s, step) && (step.DoStartRecv? || step.DoTryRecv?)
    ensures TasksKept(s, Apply(s, step))
  {
    if s.sends != [] { assert s.sends[0] in s.sends; }
    hide ItemOf;
  }

  lemma RestTasks(s: State, step: Step)
    requires Known(s) && Enabled(s, step)
    requires !step.DoStartSend? && !step.DoTrySend? && !step.DoStartRecv? && !step.DoTryRecv? && !step.DoRunNext?
    ensures TasksKept(s, Apply(s, step))
  {
    hide Without, ItemsOf, ItemOf, ClaimAll, Tickets;
  }

  lemma BeforeKept(s: State, s': State, t: nat, x: nat, y: nat)
    requires TasksKept(s, s') && Before(s, t, x, y)
    ensures Before(s', t, x, y)
  {
    assert forall id, i | CalledAt(s, id, i) :: CalledAt(s', id, i);
  }

  lemma BeforeCall(s: State, u: nat, t: nat, x: nat, y: nat)
    requires Inv(s) && Enabled(s, DoRunNext(u)) && s.tasks[u][0] in s.recs && Before(s, t, x, y)
    ensures Before(RunNext(s, u), t, x, y)
  {
    var s' := RunNext(s, u);
    hide Inv;
    assert forall id, i | CalledAt(s, id, i) :: CalledAt(s', id, i);
    if t in s.tasks && Ahead(s.tasks[t], x, y) {
      var i, j :| 0 <= i < j < |s.tasks[t]| && s.tasks[t][i] == x && s.tasks[t][j] == y;
      if u == t {
        assert s'.tasks[t][j - 1] == y;
        if i == 0 { assert CalledAt(s', x, |s.calls|); }
        else { assert s'.tasks[t][i - 1] == x; }
      }
    } else if t in s.tasks && y in s.tasks[t] && exists i :: CalledAt(s, x, i) {
      var i :| CalledAt(s, x, i);
      if u == t && s.tasks[t][0] == y { assert CalledAt(s', y, |s.calls|); }
      else if u == t { assert s.tasks[t] == [s.tasks[t][0]] + s'.tasks[t]; }
    }
  }

  lemma BeforeStep(s: State, step: Step, t: nat, x: nat, y: nat)
    requires Inv(s) && Known(s) && Enabled(s, step) && Before(s, t, x, y)
    ensures Before(Apply(s, step), t, x, y)
  {
    if step.DoRunNext? {
      assert s.tasks[step.t][0] in s.tasks[step.t];
      BeforeCall(s, step.t, t, x, y);
    } else {
      hide Inv, Known, Enabled, Apply, Before, TasksKept;
      if step.DoStartSend? || step.DoTrySend? { SendTasks(s, step); }
      else if step.DoStartRecv? || step.DoTryRecv? { RecvTasks(s, step); }
      else { RestTasks(s, step); }
      BeforeKept(s, Apply(s, step), t, x, y);
    }
  }

  lemma {:induction false} BeforeRun(run: seq<State>, steps: seq<Step>, k: nat, l: nat, t: nat, x: nat, y: nat)
    requires IsRun(run, steps) && k <= l < |run| && Before(run[k], t, x, y)
    ensures Before(run[l], t, x, y)
    decreases l
  {
    hide Inv, Known, Apply, Enabled, Before;
    if k < l {
      BeforeRun(run, steps, k, l - 1, t, x, y);
      RunInv(run, steps, l - 1);
      BeforeStep(run[l - 1], steps[l - 1], t, x, y);
    }
  }

  /** The records of one task are completed in its order: a later one never before an earlier one. */
  lemma CompletedInTaskOrder(run: seq<State>, steps: seq<Step>, k: nat, l: nat, t: nat, i: nat, j: nat, at: nat)
    requires IsRun(run, steps) && k <= l < |run| && t in run[k].tasks && i < j < |run[k].tasks[t]|
    requires at < |run[l].calls| && run[l].calls[at].id == run[k].tasks[t][j]
    ensures exists b: nat :: b < at && run[l].calls[b].id == run[k].tasks[t][i]
  {
    var x, y := run[k].tasks[t][i], run[k].tasks[t][j];
    assert Ahead(run[k].tasks[t], x, y);
    assert Before(run[k], t, x, y);
    BeforeRun(run, steps, k, l, t, x, y);
    RunInv(run, steps, l);
    hide IsRun;
    CalledThen(run[l], t, x, y, at);
  }

  lemma CalledThen(s: State, t: nat, x: nat, y: nat, at: nat)
    requires Inv(s) && Before(s, t, x, y) && at < |s.calls| && s.calls[at].id == y
    ensures exists b: nat :: b < at && s.calls[b].id == x
  {
    assert CalledOnce(s) && s.recs[y].place.Done?;
    if t in s.tasks { assert TaskOk(s, t); }
    hide Core, Bounds;
    var b: nat, c: nat :| b < c && CalledAt(s, x, b) && CalledAt(s, y, c);
    assert c == at;
  }

  // ----- Errors

  /** Record `id` is going to be completed with an error. */
  predicate Failing(s: State, id: nat) { id in s.recs && s.recs[id].place.Claimed? && s.recs[id].place.how.AsError? }

  /** A send fails with an error only in a step whose allocation failed. */
  lemma ErrorsNeedFailedAllocation(run: seq<State>, steps: seq<Step>, k: nat, id: nat)
    requires IsRun(run, steps) && k < |steps| && Failing(run[k + 1], id) && !Failing(run[k], id)
    ensures steps[k].DoStartSend? || steps[k].DoStartRecv? || steps[k].DoTryRecv?
    ensures !steps[k].grows
  {
    var s, step := run[k], steps[k];
    hide IsRun;
    if step.DoStartSend? || step.DoTrySend? { SendFails(s, step, id); }
    else if step.DoStartRecv? { RecvFails(s, step, id); }
    else if step.DoTryRecv? { TryRecvFails(s, step, id); }
    else if step.DoClose? || step.DoRequestStop? { ShutNeverFails(s, step, id); }
    else if step.DoRecheck? || step.DoCancel? { WithdrawNeverFails(s, step, id); }
    else { RestNeverFails(s, step, id); }
  }

  lemma SendFails(s: State, step: Step, id: nat)
    requires Known(s) && Enabled(s, step) && (step.DoStartSend? || step.DoTrySend?)
    requires Failing(Apply(s, step), id) && !Failing(s, id)
    ensures step.DoStartSend? && !step.grows
  {
    if s.recvs != [] { assert s.recvs[0] in s.recvs; }
    hide ItemOf;
  }

  lemma RecvFails(s: State, step: Step, id: nat)
    requires Known(s) && Enabled(s, step) && step.DoStartRecv?
    requires Failing(Apply(s, step), id) && !Failing(s, id)
    ensures !step.grows
  {
    if s.sends != [] { assert s.sends[0] in s.sends; }
    hide ItemOf;
    if s.buffer != [] {
      var s0 := Channel.Deliver(s.(buffer := s.buffer[1..]), s.buffer[0], step.id, step.n);
      PromoteMovesHead(s0, step.grows, step.n, step.id);
      if id in s0.recs { PromoteMovesHead(s0, step.grows, step.n, id); }
    }
    hide Promote;
  }

  lemma TryRecvFails(s: State, step: Step, id: nat)
    requires Known(s) && Enabled(s, step) && step.DoTryRecv?
    requires Failing(Apply(s, step), id) && !Failing(s, id)
    ensures !step.grows
  {
    if s.sends != [] { assert s.sends[0] in s.sends; }
    hide ItemOf;
  }

  lemma ShutNeverFails(s: State, step: Step, id: nat)
    requires Known(s) && Enabled(s, step) && (step.DoClose? || step.DoRequestStop?)
    ensures Failing(Apply(s, step), id) ==> Failing(s, id)
  {
    hide ItemsOf, ItemOf, Tickets;
  }

  lemma WithdrawNeverFails(s: State, step: Step, id: nat)
    requires Known(s) && Enabled(s, step) && (step.DoRecheck? || step.DoCancel?)
    ensures Failing(Apply(s, step), id) ==> Failing(s, id)
  {
    WithdrawRecs(s, step);
    hide Apply;
  }

  lemma RestNeverFails(s: State, step: Step, id: nat)
    requires Known(s) && Enabled(s, step)
    requires !step.DoClose? && !step.DoRequestStop? && !step.DoRecheck? && !step.DoCancel?
    requires !step.DoStartSend? && !step.DoTrySend? && !step.DoStartRecv? && !step.DoTryRecv?
    ensures Failing(Apply(s, step), id) ==> Failing(s, id)
  {
  }

  // ----- Stop requests and failed starts

  /** The stop flag of record `id` is up. */
  predicate Raised(s: State, id: nat) { id in s.recs && StopRequested(s.recs[id]) }

  lemma SendKeepsFlags(s: State, step: Step, id: nat)
    requires Known(s) && Enabled(s, step) && (step.DoStartSend? || step.DoTrySend?)
    ensures Raised(Apply(s, step), id) <==> Raised(s, id)
  {
    if s.recvs != [] { assert s.recvs[0] in s.recvs; }
    hide ItemOf;
  }

  lemma PromoteKeepsFlags(s: State, grows: bool, n: nat, id: nat)
    requires s.sends != [] ==> s.sends[0] in s.recs
    ensures Raised(Promote(s, grows, n), id) <==> Raised(s, id)
  {
    hide ItemOf;
  }

  lemma RecvKeepsFlags(s: State, step: Step, id: nat)
    requires Known(s) && Enabled(s, step) && step.DoStartRecv?
    ensures Raised(Apply(s, step), id) <==> Raised(s, id)
  {
    if s.sends != [] { assert s.sends[0] in s.sends; }
    if s.buffer != [] {
      var s0 := Channel.Deliver(s.(buffer := s.buffer[1..]), s.buffer[0], step.id, step.n);
      PromoteKeepsFlags(s0, step.grows, step.n, id);
    }
    hide ItemOf, Promote;
  }

  lemma TryRecvKeepsFlags(s: State, step: Step, id: nat)
    requires Known(s) && Enabled(s, step) && step.DoTryRecv?
    ensures Raised(Apply(s, step), id) <==> Raised(s, id)
  {
    if s.sends != [] { assert s.sends[0] in s.sends; }
    if s.buffer != [] {
      var s0 := s.(buffer := s.buffer[1..], received := s.received + [Delivery(s.buffer[0], None)]);
      PromoteKeepsFlags(s0, step.grows, step.n, id);
    }
    hide ItemOf, Promote;
  }

  lemma ShutKeepsFlags(s: State, step: Step, id: nat)
    requires Known(s) && Enabled(s, step) && (step.DoClose? || step.DoRequestStop?)
    ensures Raised(Apply(s, step), id) <==> Raised(s, id)
  {
    hide ItemsOf, ItemOf, Tickets;
  }

  lemma WithdrawKeepsFlags(s: State, step: Step, id: nat)
    requires Known(s) && Enabled(s, step) && (step.DoRecheck? || step.DoCancel?)
    ensures Raised(Apply(s, step), id) <==> Raised(s, id)
  {
    if step.DoRecheck? {
      StopOneRecs(s.(recheck := None), s.recheck.value, step.n);
    } else {
      StopOneRecs(s.(recs := s.recs[step.id := WithCallback(s.recs[step.id], Fired)]), step.id, step.n);
    }
    hide StopOne;
  }

  lemma RestRaises(s: State, step: Step, id: nat)
    requires Callbacks(s) && Known(s) && Enabled(s, step)
    requires !step.DoStartSend? && !step.DoTrySend? && !step.DoStartRecv? && !step.DoTryRecv?
    requires !step.DoClose? && !step.DoRequestStop? && !step.DoRecheck? && !step.DoCancel?
    ensures Raised(Apply(s, step), id) <==> Raised(s, id) || step == DoRaiseFlag(id)
  {
  }

  lemma RaiseStep(s: State, step: Step, id: nat)
    requires Callbacks(s) && Known(s) && Enabled(s, step)
    ensures Raised(Apply(s, step), id) <==> Raised(s, id) || step == DoRaiseFlag(id)
  {
    hide Callbacks, Known, Enabled, Apply, Raised;
    if step.DoStartSend? || step.DoTrySend? { SendKeepsFlags(s, step, id); }
    else if step.DoStartRecv? { RecvKeepsFlags(s, step, id); }
    else if step.DoTryRecv? { TryRecvKeepsFlags(s, step, id); }
    else if step.DoClose? || step.DoRequestStop? { ShutKeepsFlags(s, step, id); }
    else if step.DoRecheck? || step.DoCancel? { WithdrawKeepsFlags(s, step, id); }
    else { RestRaises(s, step, id); }
  }

  /** A record counts as stopped, for every operation that asks, exactly from the stop request on. */
  lemma {:induction false} RaisedExactly(run: seq<State>, steps: seq<Step>, k: nat, id: nat)
    requires IsRun(run, steps) && k < |run|
    ensures Raised(run[k], id) <==> exists j :: 0 <= j < k && steps[j] == DoRaiseFlag(id)
  {
    hide Inv, Known, Apply, Enabled, Raised;
    if k == 0 {
      NoneRaised(run[0].capacity, id);
    } else {
      RaisedExactly(run, steps, k - 1, id);
      RunInv(run, steps, k - 1);
      InvCallbacks(run[k - 1]);
      RaiseStep(run[k - 1], steps[k - 1], id);
    }
  }

  lemma NoneRaised(capacity: nat, id: nat)
    ensures !Raised(Init(capacity), id)
  {
  }

  lemma InvCallbacks(s: State)
    requires Inv(s)
    ensures Callbacks(s)
  {
  }

  /** A start that finds its token stopped, or cannot register with it, is stopped and touches nothing else. */
  lemma FailedStartOutcome(run: seq<State>, steps: seq<Step>, k: nat)
    requires IsRun(run, steps) && k < |steps| && steps[k].DoStartFails?
    ensures Promised(run[k + 1], steps[k].id, steps[k].n, Stopped)
    ensures run[k + 1] == run[k].(recs := run[k + 1].recs, tasks := run[k].tasks[steps[k].n := [steps[k].id]])
  {
  }

  /** A start that goes ahead is ready, and can be stopped if and only if it registered a callback. */
  lemma InstallOutcome(run: seq<State>, steps: seq<Step>, k: nat)
    requires IsRun(run, steps) && k < |steps| && steps[k].DoInstall?
    ensures var s, s', id := run[k], run[k + 1], steps[k].id;
      && id in s'.recs && s'.recs[id].place.Ready? && (s'.recs[id].cb.Armed? <==> steps[k].arms)
      && s' == s.(recs := s'.recs)
  {
  }
}
