/**
  The strand: a serialising executor.  Every critical section of the source is one
  atomic step taken by an arbitrary thread; what a thread still has to do after
  leaving a critical section is a task.  Completions run outside the lock, so any
  step, including a re-entrant enqueue or shutdown, may happen while one is running.
 */
module Strand {

  type Thread = nat

  /** A queued record; `stopOnly` records complete with stopped even in their own turn. */
  datatype Record = Record(id: nat, stopOnly: bool)

  datatype Option<+X> = None | Some(value: X)

  datatype Task =
    /** A call of launch_runner that thread `th` is about to make. */
    | Launch(th: Thread)
    /** `th` is about to call launch_runner_once inside its launch loop. */
    | Once(th: Thread)
    /** A scheduled runner that has not fired yet. */
    | Runner
    /** run_one took `record` from the queue and has not begun its completion. */
    | Popped(record: Record)
    /** run_one is inside the completion of `record`. */
    | Completing(record: Record)
    /** complete_stopped_batch: `rest` still to do, `current` being completed. */
    | Batch(rest: seq<Record>, current: Option<Record>)

  datatype Kind = Value | Stopped
  datatype Event = Event(record: Record, kind: Kind)

  /**
    `guards` has an entry per thread that is inside the launch loop, holding its relaunch
    flag.  The last four fields are history: enqueue order, completions begun, completions
    finished, and how many value completions began while the strand was closed.
   */
  datatype State = State(
    queue: seq<Record>,
    deferred: seq<Record>,
    running: bool,
    active: bool,
    closed: bool,
    tasks: map<nat, Task>,
    guards: map<Thread, bool>,
    enqueued: seq<Record>,
    begun: seq<Event>,
    finished: seq<Record>,
    lateValues: nat)

  function Init(): State {
    State([], [], false, false, false, map[], map[], [], [], [], 0)
  }

  // ----- Critical sections

  /** defer_queue_locked and take_deferred_stopped_locked, then become the active drainer `n`. */
  function StartDrain(s: State, n: nat): State {
    s.(queue := [], deferred := [], active := true, running := true,
       tasks := s.tasks[n := Batch(s.deferred + s.queue, None)])
  }

  /** The closed branch of enqueue, also taken when the queue cannot grow. */
  function EnqueueStopped(s: State, r: Record, n: nat): State {
    var s1 := s.(queue := [], deferred := s.deferred + s.queue + [r]);
    if s.active then s1 else StartDrain(s1, n)
  }

  /** enqueue by thread `th`; `grows` says whether the queue node could be allocated. */
  function Enqueue(s: State, r: Record, th: Thread, grows: bool, n: nat): State {
    var s0 := s.(enqueued := s.enqueued + [r]);
    if s.closed then EnqueueStopped(s0, r, n)
    else if !grows then EnqueueStopped(s0.(closed := true), r, n)
    else if s.running then s0.(queue := s.queue + [r])
    else s0.(queue := s.queue + [r], running := true, tasks := s.tasks[n := Launch(th)])
  }

  function Shutdown(s: State, n: nat): State {
    var s1 := s.(closed := true);
    if s.active then s1
    else if s.queue == [] && s.deferred == [] then s1.(running := false)
    else StartDrain(s1, n)
  }

  /** First critical section of run_one, entered by runner `i`. */
  function RunOne(s: State, i: nat): State {
    var s0 := s.(tasks := s.tasks - {i});
    if s.active then s0
    else if s.queue == [] then
      if s.closed && s.deferred != [] then StartDrain(s0, i)
      else s0.(running := false)
    else if s.closed then StartDrain(s0, i)
    else s0.(active := true, queue := s.queue[1..], tasks := s.tasks[i := Popped(s.queue[0])])
  }

  /** The turn's completion begins, outside the lock. */
  function BeginTurn(s: State, i: nat): State
    requires i in s.tasks && s.tasks[i].Popped?
  {
    var r := s.tasks[i].record;
    s.(tasks := s.tasks[i := Completing(r)],
       begun := s.begun + [Event(r, if r.stopOnly then Stopped else Value)],
       lateValues := s.lateValues + if s.closed && !r.stopOnly then 1 else 0)
  }

  /** Second critical section of run_one, by thread `th`. */
  function EndTurn(s: State, i: nat, th: Thread): State
    requires i in s.tasks && s.tasks[i].Completing?
  {
    var s0 := s.(finished := s.finished + [s.tasks[i].record]);
    if s.closed && (s.queue != [] || s.deferred != []) then StartDrain(s0, i)
    else if s.queue == [] then s0.(active := false, running := false, tasks := s.tasks - {i})
    else s0.(active := false, tasks := s.tasks[i := Launch(th)])
  }

  function BeginStopped(s: State, i: nat): State
    requires i in s.tasks && s.tasks[i].Batch? && s.tasks[i].current.None? && s.tasks[i].rest != []
  {
    var b := s.tasks[i];
    s.(tasks := s.tasks[i := Batch(b.rest[1..], Some(b.rest[0]))],
       begun := s.begun + [Event(b.rest[0], Stopped)])
  }

  function EndStopped(s: State, i: nat): State
    requires i in s.tasks && s.tasks[i].Batch? && s.tasks[i].current.Some?
  {
    var b := s.tasks[i];
    s.(tasks := s.tasks[i := Batch(b.rest, None)], finished := s.finished + [b.current.value])
  }

  /** The batch loop runs dry: take what arrived meanwhile, or step down. */
  function Refill(s: State, i: nat): State
    requires i in s.tasks && s.tasks[i] == Batch([], None)
  {
    if s.deferred + s.queue == [] then
      s.(queue := [], deferred := [], active := false, running := false, tasks := s.tasks - {i})
    else
      s.(queue := [], deferred := [], tasks := s.tasks[i := Batch(s.deferred + s.queue, None)])
  }

  // ----- Launching

  /** launch_runner: a thread already in its launch loop only raises its relaunch flag. */
  function EnterLaunch(s: State, i: nat): State
    requires i in s.tasks && s.tasks[i].Launch?
  {
    var th := s.tasks[i].th;
    if th in s.guards then s.(guards := s.guards[th := true], tasks := s.tasks - {i})
    else s.(guards := s.guards[th := false], tasks := s.tasks[i := Once(th)])
  }

  function LaunchOnce(s: State, i: nat): State
    requires i in s.tasks && s.tasks[i].Once?
  {
    s.(tasks := s.tasks[i := Runner])
  }

  /** Scheduling, allocating or connecting threw, or the runner completed with stopped or error. */
  function LaunchFails(s: State, i: nat): State
    requires i in s.tasks && (s.tasks[i].Once? || s.tasks[i].Runner?)
  {
    Shutdown(s.(tasks := s.tasks - {i}), i)
  }

  /** Bottom of the launch loop of `th`: go round again if somebody asked for it. */
  function LaunchLoopEnd(s: State, th: Thread, n: nat): State
    requires th in s.guards
  {
    if s.guards[th] then s.(guards := s.guards[th := false], tasks := s.tasks[n := Once(th)])
    else s.(guards := s.guards - {th})
  }

  // ----- Steps

  datatype Step =
    | DoEnqueue(r: Record, th: Thread, grows: bool, n: nat)
    | DoShutdown(n: nat)
    | DoRunOne(i: nat)
    | DoBeginTurn(i: nat)
    | DoEndTurn(i: nat, th: Thread)
    | DoBeginStopped(i: nat)
    | DoEndStopped(i: nat)
    | DoRefill(i: nat)
    | DoEnterLaunch(i: nat)
    | DoLaunchOnce(i: nat)
    | DoLaunchFails(i: nat)
    | DoLaunchLoopEnd(th: Thread, n: nat)

  predicate Enabled(s: State, step: Step) {
    match step
    case DoEnqueue(_, _, _, n) => n !in s.tasks
    case DoShutdown(n) => n !in s.tasks
    case DoRunOne(i) => i in s.tasks && s.tasks[i].Runner?
    case DoBeginTurn(i) => i in s.tasks && s.tasks[i].Popped?
    case DoEndTurn(i, _) => i in s.tasks && s.tasks[i].Completing?
    case DoBeginStopped(i) => i in s.tasks && s.tasks[i].Batch? && s.tasks[i].current.None? && s.tasks[i].rest != []
    case DoEndStopped(i) => i in s.tasks && s.tasks[i].Batch? && s.tasks[i].current.Some?
    case DoRefill(i) => i in s.tasks && s.tasks[i] == Batch([], None)
    case DoEnterLaunch(i) => i in s.tasks && s.tasks[i].Launch?
    case DoLaunchOnce(i) => i in s.tasks && s.tasks[i].Once?
    case DoLaunchFails(i) => i in s.tasks && (s.tasks[i].Once? || s.tasks[i].Runner?)
    case DoLaunchLoopEnd(th, n) => th in s.guards && n !in s.tasks && forall i | i in s.tasks :: s.tasks[i] != Once(th)
  }

  function Apply(s: State, step: Step): State
    requires Enabled(s, step)
  {
    match step
    case DoEnqueue(r, th, grows, n) => Enqueue(s, r, th, grows, n)
    case DoShutdown(n) => Shutdown(s, n)
    case DoRunOne(i) => RunOne(s, i)
    case DoBeginTurn(i) => BeginTurn(s, i)
    case DoEndTurn(i, th) => EndTurn(s, i, th)
    case DoBeginStopped(i) => BeginStopped(s, i)
    case DoEndStopped(i) => EndStopped(s, i)
    case DoRefill(i) => Refill(s, i)
    case DoEnterLaunch(i) => EnterLaunch(s, i)
    case DoLaunchOnce(i) => LaunchOnce(s, i)
    case DoLaunchFails(i) => LaunchFails(s, i)
    case DoLaunchLoopEnd(th, n) => LaunchLoopEnd(s, th, n)
  }

  /** `run` is a run of the strand: it starts fresh and every move is an enabled step. */
  ghost predicate IsRun(run: seq<State>, steps: seq<Step>) {
    && |run| == |steps| + 1
    && run[0] == Init()
    && forall k | 0 <= k < |steps| :: Enabled(run[k], steps[k]) && run[k + 1] == Apply(run[k], steps[k])
  }

  // ----- The invariant

  predicate Working(t: Task) { t.Popped? || t.Completing? || t.Batch? }

  /** Records a task holds whose completion has not begun. */
  function Held(t: Task): seq<Record> {
    match t
    case Popped(r) => [r]
    case Batch(rest, _) => rest
    case _ => []
  }

  /** The record a task is completing right now. */
  function Current(t: Task): seq<Record> {
    match t
    case Completing(r) => [r]
    case Batch(_, Some(r)) => [r]
    case _ => []
  }

  function Records(events: seq<Event>): (rs: seq<Record>)
    ensures |rs| == |events|
  {
    seq(|events|, i requires 0 <= i < |events| => events[i].record)
  }

  /** Exactly the active state has a worker, and only one. */
  ghost predicate OneWorker(s: State) {
    && (forall i | i in s.tasks && Working(s.tasks[i]) :: s.active)
    && (s.active ==> exists i :: i in s.tasks && Working(s.tasks[i]))
    && (forall i, j | i in s.tasks && j in s.tasks && Working(s.tasks[i]) && Working(s.tasks[j]) :: i == j)
  }

  /** While open, at most one task or raised relaunch flag exists, and it exists iff running. */
  ghost predicate OneToken(s: State) {
    !s.closed ==>
      && s.deferred == []
      && (s.queue != [] ==> s.running)
      && (forall i | i in s.tasks :: s.running && !s.tasks[i].Batch?)
      && (forall th | th in s.guards && s.guards[th] :: s.running && s.tasks == map[])
      && (forall i, j | i in s.tasks && j in s.tasks :: i == j)
      && (forall a, b | a in s.guards && b in s.guards && s.guards[a] && s.guards[b] :: a == b)
      && (s.running ==> s.tasks != map[] || exists th :: th in s.guards && s.guards[th])
  }

  /** Once closed, work lies around only while somebody is draining it. */
  ghost predicate ClosedIsDrained(s: State) {
    && (s.closed && !s.active ==> s.queue == [] && s.deferred == [] && !s.running)
    && (s.active ==> s.running)
  }

  /** First in, first out: begun, held by the worker, deferred, queued. */
  ghost predicate Fifo(s: State) {
    && (forall i | i in s.tasks && Working(s.tasks[i]) ::
          && s.enqueued == Records(s.begun) + Held(s.tasks[i]) + s.deferred + s.queue
          && Records(s.begun) == s.finished + Current(s.tasks[i]))
    && (!s.active ==> s.enqueued == Records(s.begun) + s.deferred + s.queue && Records(s.begun) == s.finished)
  }

  /** At most one value completion begins after closing: the one whose turn was already taken. */
  ghost predicate FewLateValues(s: State) {
    && (!s.closed ==> s.lateValues == 0)
    && s.lateValues <= 1
    && (forall i | i in s.tasks && s.tasks[i].Popped? :: s.lateValues == 0)
  }

  ghost predicate Inv(s: State) {
    OneWorker(s) && OneToken(s) && ClosedIsDrained(s) && Fifo(s) && FewLateValues(s)
  }
}
