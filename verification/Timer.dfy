/**
  The timer context: one worker thread, a list of queued items, a pending counter, and a
  rendezvous between the destructor of an operation and the delivery of its completion.
  Critical sections, atomic exchanges and the steps of a delivery are atomic steps; an item
  and its operation share one number.  Time is an integer that never goes back.
 */
module Timer {

  type Thread = nat

  const WORKER: Thread := 0

  datatype Option<+X> = None | Some(value: X)

  /** How far a completion attempt has come: name the thread, claim, run the receiver, mark as delivered. */
  datatype Stage = ToPublish | ToClaim | Invoking | ToFinish

  datatype Start =
    | NotStarted
    /** start() completes inline with stopped, on thread `th`. */
    | Inline(th: Thread, stage: Stage)
    | InlineOver(th: Thread)
    /** The item was accepted by enqueue. */
    | Handed

  /**
    Destructor: not running, claim won, waiting for the delivery, returned; `th` is the thread
    it runs or ran on.
   */
  datatype Life = Alive | Claimed(th: Thread) | Waiting(th: Thread) | Gone(th: Thread)

  /** Who won the exchange on done. */
  datatype Winner = Nobody | Completer | Destructor

  /** `publisher` is the published completing thread; `winner` other than Nobody is the done flag. */
  datatype Op = Op(deadline: int, hasItem: bool, start: Start, flagged: bool, publisher: Option<Thread>,
                   winner: Winner, delivered: bool, discarded: bool, life: Life)

  predicate Done(op: Op) { !op.winner.Nobody? }

  datatype Worker =
    | Looking
    | Delivering(id: nat, asStopped: bool, stage: Stage)
    | ToDecrement(id: nat)
    | Exited

  /** A receiver was invoked. */
  datatype Call = Call(id: nat, asStopped: bool)

  datatype State = State(
    items: seq<nat>,
    pending: nat,
    stop: bool,
    now: int,
    worker: Worker,
    ops: map<nat, Op>,
    calls: seq<Call>)

  function Init(now: int): State {
    State([], 0, false, now, Looking, map[], [])
  }

  // ----- What the worker takes next

  datatype Choice = Exit | Idle | Sleep | TakeStopped(at: nat) | TakeValue(at: nat)

  predicate Known(ops: map<nat, Op>, items: seq<nat>) {
    forall id | id in items :: id in ops
  }

  /** Position of the first item whose stop flag is up, or the length. */
  function FirstFlagged(ops: map<nat, Op>, items: seq<nat>): (k: nat)
    requires Known(ops, items)
    ensures k <= |items|
    ensures k < |items| ==> ops[items[k]].flagged
    ensures forall j | 0 <= j < k :: !ops[items[j]].flagged
  {
    if items == [] || ops[items[0]].flagged then 0
    else assert forall id | id in items[1..] :: id in items; 1 + FirstFlagged(ops, items[1..])
  }

  /** Position of the first item with the smallest deadline. */
  function Earliest(ops: map<nat, Op>, items: seq<nat>): (k: nat)
    requires items != [] && Known(ops, items)
    ensures k < |items|
    ensures forall j | 0 <= j < |items| :: ops[items[k]].deadline <= ops[items[j]].deadline
    ensures forall j | 0 <= j < k :: ops[items[k]].deadline < ops[items[j]].deadline
  {
    if |items| == 1 then 0
    else
      assert forall id | id in items[1..] :: id in items;
      var k := Earliest(ops, items[1..]);
      assert items[1..][k] == items[k + 1];
      if ops[items[0]].deadline <= ops[items[k + 1]].deadline then 0 else k + 1
  }

  function Pick(s: State): Choice
    requires Known(s.ops, s.items)
  {
    if s.stop then if s.items == [] then Exit else TakeStopped(|s.items| - 1)
    else if s.items == [] then Idle
    else
      var f := FirstFlagged(s.ops, s.items);
      if f < |s.items| then TakeStopped(f)
      else
        var e := Earliest(s.ops, s.items);
        if s.ops[s.items[e]].deadline <= s.now then TakeValue(e) else Sleep
  }

  function RemoveAt(items: seq<nat>, k: nat): seq<nat>
    requires k < |items|
  {
    items[..k] + items[k + 1..]
  }

  /** The worker's critical section. */
  function Take(s: State): State
    requires Known(s.ops, s.items)
  {
    match Pick(s)
    case Exit => s.(worker := Exited)
    case Idle => s
    case Sleep => s
    case TakeStopped(k) => s.(items := RemoveAt(s.items, k), worker := Delivering(s.items[k], true, ToPublish))
    case TakeValue(k) => s.(items := RemoveAt(s.items, k), worker := Delivering(s.items[k], false, ToPublish))
  }

  // ----- Completion attempts, by the worker or inline

  function SetOp(s: State, id: nat, op: Op): State {
    s.(ops := s.ops[id := op])
  }

  function Publish(op: Op, th: Thread): Op { op.(publisher := Some(th)) }

  /** The exchange on done: only the first one in runs the receiver. */
  function ClaimOp(op: Op): Op { if Done(op) then op else op.(winner := Completer) }

  function AfterClaim(op: Op): Stage { if Done(op) then ToFinish else Invoking }

  function Logged(calls: seq<Call>, op: Op, id: nat, asStopped: bool): seq<Call> {
    if Done(op) then calls else calls + [Call(id, asStopped)]
  }

  /** The next step of the worker's delivery. */
  function Deliver(s: State): State
    requires s.worker.Delivering? && s.worker.id in s.ops
  {
    var id := s.worker.id;
    var op := s.ops[id];
    match s.worker.stage
    case ToPublish => SetOp(s, id, Publish(op, WORKER)).(worker := s.worker.(stage := ToClaim))
    case ToClaim =>
      SetOp(s, id, ClaimOp(op)).(worker := s.worker.(stage := AfterClaim(op)),
                                 calls := Logged(s.calls, op, id, s.worker.asStopped))
    case Invoking => s.(worker := s.worker.(stage := ToFinish))
    case ToFinish => SetOp(s, id, op.(delivered := true)).(worker := ToDecrement(id))
  }

  function Decrement(s: State): State
    requires s.worker.ToDecrement? && s.pending > 0
  {
    s.(pending := s.pending - 1, worker := Looking)
  }

  /** The next step of an inline completion. */
  function InlineStep(s: State, id: nat): State
    requires id in s.ops && s.ops[id].start.Inline?
  {
    var op := s.ops[id];
    var th := op.start.th;
    match op.start.stage
    case ToPublish => SetOp(s, id, Publish(op, th).(start := Inline(th, ToClaim)))
    case ToClaim =>
      SetOp(s, id, ClaimOp(op).(start := Inline(th, AfterClaim(op)))).(calls := Logged(s.calls, op, id, true))
    case Invoking => SetOp(s, id, op.(start := Inline(th, ToFinish)))
    case ToFinish => SetOp(s, id, op.(delivered := op.hasItem, start := InlineOver(th)))
  }

  // ----- Starting

  /** start(): no item could be made, the token was stopped already, or something threw. */
  function StartInline(s: State, id: nat, th: Thread, hasItem: bool): State
    requires id in s.ops
  {
    SetOp(s, id, s.ops[id].(hasItem := hasItem, start := Inline(th, ToPublish)))
  }

  /** start() up to enqueue, which refuses after shutdown. */
  function StartEnqueue(s: State, id: nat, th: Thread): State
    requires id in s.ops
  {
    if s.stop then StartInline(s, id, th, true)
    else SetOp(s, id, s.ops[id].(hasItem := true, start := Handed)).(items := s.items + [id], pending := s.pending + 1)
  }

  // ----- Destroying

  /** ~op, up to and including the exchange on done. */
  function Destroy(s: State, id: nat, th: Thread): State
    requires id in s.ops
  {
    var op := s.ops[id];
    SetOp(s, id,
      if !op.hasItem then op.(life := Gone(th))
      else if Done(op) then
        if op.publisher == Some(th) then op.(life := Gone(th)) else op.(life := Waiting(th))
      else op.(winner := Destructor, life := Claimed(th)))
  }

  function Position(items: seq<nat>, id: nat): (k: nat)
    ensures k <= |items|
    ensures k < |items| <==> id in items
    ensures k < |items| ==> items[k] == id
  {
    if items == [] || items[0] == id then 0 else 1 + Position(items[1..], id)
  }

  /** discard_item, called by a destructor that won the claim. */
  function Discard(s: State, id: nat): State
    requires id in s.ops && s.ops[id].life.Claimed? && (id in s.items ==> s.pending > 0)
  {
    var op := s.ops[id];
    var k := Position(s.items, id);
    if k == |s.items| then SetOp(s, id, op.(life := Waiting(op.life.th)))
    else SetOp(s, id, op.(life := Gone(op.life.th), discarded := true)).(items := RemoveAt(s.items, k), pending := s.pending - 1)
  }

  /** wait_delivered returns. */
  function WaitOver(s: State, id: nat): State
    requires id in s.ops && s.ops[id].life.Waiting?
  {
    SetOp(s, id, s.ops[id].(life := Gone(s.ops[id].life.th)))
  }

  // ----- Steps

  datatype Step =
    | DoCreate(id: nat, deadline: int)
    | DoStartInline(id: nat, th: Thread, hasItem: bool)
    | DoStartEnqueue(id: nat, th: Thread)
    | DoInlineStep(id: nat)
    | DoFlag(id: nat)
    | DoShutdown
    | DoTick(now: int)
    | DoTake
    | DoDeliver
    | DoDecrement
    | DoDestroy(id: nat, th: Thread)
    | DoDiscard(id: nat)
    | DoWaitOver(id: nat)

  /** The worker thread is not inside a destructor it called from a receiver. */
  ghost predicate WorkerFree(s: State) {
    forall id | id in s.ops :: s.ops[id].life != Claimed(WORKER) && s.ops[id].life != Waiting(WORKER)
  }

  /** The worker thread runs receiver code, from which it may call anything. */
  predicate InReceiver(w: Worker) { w.Delivering? && w.stage.Invoking? }

  /**
    A destructor may start once start() is past the point of completing inline, and on a
    thread that runs receiver code if it is the completing one.
   */
  ghost predicate MayDestroy(s: State, id: nat, th: Thread) {
    && id in s.ops && s.ops[id].life.Alive?
    && (th == WORKER ==> InReceiver(s.worker) && WorkerFree(s))
    && (s.ops[id].start.Inline? ==>
          && !s.ops[id].start.stage.ToPublish? && !s.ops[id].start.stage.ToClaim?
          && (s.ops[id].start.th == th ==> s.ops[id].start.stage.Invoking?))
  }

  ghost predicate Enabled(s: State, step: Step) {
    match step
    case DoCreate(id, _) => id !in s.ops
    case DoStartInline(id, th, _) => id in s.ops && s.ops[id].start.NotStarted? && s.ops[id].life.Alive?
    case DoStartEnqueue(id, th) => id in s.ops && s.ops[id].start.NotStarted? && s.ops[id].life.Alive?
    case DoInlineStep(id) => id in s.ops && s.ops[id].start.Inline?
    case DoFlag(id) => id in s.ops
    case DoShutdown => true
    case DoTick(now) => s.now <= now
    case DoTake => s.worker.Looking?
    case DoDeliver => s.worker.Delivering? && WorkerFree(s)
    case DoDecrement => s.worker.ToDecrement?
    case DoDestroy(id, th) => MayDestroy(s, id, th)
    case DoDiscard(id) => id in s.ops && s.ops[id].life.Claimed?
    case DoWaitOver(id) => id in s.ops && s.ops[id].life.Waiting? && s.ops[id].delivered
  }

  /** What the step functions need; it follows from the invariant. */
  ghost predicate Sound(s: State) {
    && Known(s.ops, s.items)
    && (s.worker.Delivering? ==> s.worker.id in s.ops)
    && (s.worker.ToDecrement? ==> s.pending > 0)
    && (s.items != [] ==> s.pending > 0)
  }

  ghost function Apply(s: State, step: Step): State
    requires Enabled(s, step) && Sound(s)
  {
    match step
    case DoCreate(id, deadline) =>
      SetOp(s, id, Op(deadline, false, NotStarted, false, None, Nobody, false, false, Alive))
    case DoStartInline(id, th, hasItem) => StartInline(s, id, th, hasItem)
    case DoStartEnqueue(id, th) => StartEnqueue(s, id, th)
    case DoInlineStep(id) => InlineStep(s, id)
    case DoFlag(id) => SetOp(s, id, s.ops[id].(flagged := true))
    case DoShutdown => s.(stop := true)
    case DoTick(now) => s.(now := now)
    case DoTake => Take(s)
    case DoDeliver => Deliver(s)
    case DoDecrement => Decrement(s)
    case DoDestroy(id, th) => Destroy(s, id, th)
    case DoDiscard(id) => Discard(s, id)
    case DoWaitOver(id) => WaitOver(s, id)
  }

  ghost predicate IsRun(run: seq<State>, steps: seq<Step>) {
    && |run| == |steps| + 1
    && run[0] == Init(run[0].now)
    && forall k | 0 <= k < |steps| ::
         Enabled(run[k], steps[k]) && Sound(run[k]) && run[k + 1] == Apply(run[k], steps[k])
  }

  // ----- The invariant

  predicate Distinct(ids: seq<nat>) {
    forall i, j | 0 <= i < j < |ids| :: ids[i] != ids[j]
  }

  predicate Busy(w: Worker) { w.Delivering? || w.ToDecrement? }

  /** pending counts the queued items and the one in the worker's hands. */
  ghost predicate Accounts(s: State) {
    && s.pending == |s.items| + (if Busy(s.worker) then 1 else 0)
    && Distinct(s.items)
    && (s.worker.Exited? ==> s.stop && s.items == [])
  }

  /** The worker is delivering item `id`. */
  predicate Holds(w: Worker, id: nat) { w.Delivering? && w.id == id }

  /**
    An accepted item is in exactly one place: queued, held, delivered or discarded.
    `queued` says whether `id` is among the queued items.
   */
  predicate Placed(op: Op, id: nat, queued: bool, w: Worker) {
    if op.start.Handed? then
      && op.hasItem
      && (queued || Holds(w, id) || op.delivered || op.discarded)
      && (queued ==> !Holds(w, id) && !op.delivered && !op.discarded)
      && (Holds(w, id) ==> !op.delivered && !op.discarded)
      && !(op.delivered && op.discarded)
    else
      !queued && !Holds(w, id) && !op.discarded && (op.delivered ==> op.start.InlineOver?)
  }

  datatype Attempt = NoAttempt | Attempt(th: Thread, stage: Stage)

  /** The completion attempt under way, if any. */
  function AttemptOn(op: Op, id: nat, w: Worker): Attempt {
    if op.start.Inline? then Attempt(op.start.th, op.start.stage)
    else if Holds(w, id) then Attempt(WORKER, w.stage)
    else NoAttempt
  }

  /** Who may have published and won, given how far the completion attempt has come. */
  predicate ClaimsOk(op: Op, id: nat, queued: bool, w: Worker) {
    && (match AttemptOn(op, id, w)
        case NoAttempt => true
        case Attempt(_, ToPublish) => !op.winner.Completer?
        case Attempt(th, ToClaim) => op.publisher == Some(th) && !op.winner.Completer?
        case Attempt(th, Invoking) => op.publisher == Some(th) && op.winner.Completer?
        case Attempt(th, ToFinish) => op.publisher == Some(th) && Done(op))
    && (op.start.InlineOver? ==> Done(op) && op.publisher == Some(op.start.th) && op.delivered == op.hasItem)
    && (op.delivered ==> Done(op))
    && (op.start.NotStarted? ==> !Done(op) && !op.hasItem)
    && (queued ==> !op.winner.Completer?)
    && (op.discarded ==> op.winner.Destructor?)
  }

  /** The attempt runs, or has just run, the receiver on thread `th`. */
  predicate Within(a: Attempt, th: Thread) {
    a.Attempt? && a.th == th && (a.stage.Invoking? || a.stage.ToFinish?)
  }

  /** A waiting destructor waits for somebody else; a finished one has settled the matter. */
  predicate LifeOk(op: Op, id: nat, queued: bool, w: Worker) {
    match op.life
    case Alive => !op.winner.Destructor?
    case Claimed(th) =>
      && op.winner.Destructor? && op.start.Handed? && !op.discarded
      && (th == WORKER ==> InReceiver(w) && queued)
    case Waiting(th) =>
      && Done(op) && op.hasItem && !op.discarded && !queued
      && (th == WORKER ==> InReceiver(w) && !Holds(w, id))
      && (op.start.Inline? ==> op.start.th != th)
    case Gone(th) =>
      && !queued
      && (op.start.NotStarted? || Done(op))
      && (op.hasItem ==> op.discarded || op.delivered || Within(AttemptOn(op, id, w), th))
  }

  predicate OpOk(op: Op, id: nat, queued: bool, w: Worker) {
    Placed(op, id, queued, w) && ClaimsOk(op, id, queued, w) && LifeOk(op, id, queued, w)
  }

  ghost predicate Ops(s: State) {
    forall id | id in s.ops :: OpOk(s.ops[id], id, id in s.items, s.worker)
  }

  ghost predicate CallsOk(s: State) {
    && (forall k | 0 <= k < |s.calls| ::
          && s.calls[k].id in s.ops && s.ops[s.calls[k].id].winner.Completer?
          && (s.calls[k].asStopped || s.ops[s.calls[k].id].deadline <= s.now))
    && (forall j, k | 0 <= j < k < |s.calls| :: s.calls[j].id != s.calls[k].id)
    && (forall id | id in s.ops && s.ops[id].winner.Completer? :: Called(s, id))
  }

  ghost predicate Called(s: State, id: nat) {
    exists k :: 0 <= k < |s.calls| && s.calls[k].id == id
  }

  ghost predicate Base(s: State) {
    && Accounts(s)
    && (forall id | id in s.items :: id in s.ops && s.ops[id].start.Handed?)
    && (Busy(s.worker) ==> s.worker.id in s.ops && s.ops[s.worker.id].start.Handed?)
    && (s.worker.ToDecrement? ==> s.worker.id in s.ops && s.ops[s.worker.id].delivered)
    && (s.worker.Delivering? && !s.worker.asStopped ==> s.ops[s.worker.id].deadline <= s.now)
  }

  ghost predicate Inv(s: State) {
    Base(s) && Ops(s) && CallsOk(s)
  }
}
