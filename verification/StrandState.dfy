/**
  The strand's shared state as an object, updated in place under the lock.  Each critical
  section does to the object what the corresponding step does to the strand's state, which is
  ghost here, and returns what its thread has to do once the lock is released.
 */
module StrandState {
  import opened Strand

  /** What is left to do outside the lock. */
  datatype Todo =
    | Nothing
    | LaunchRunner
    | Complete(record: Record)
    | Drain(batch: seq<Record>)

  class Shared {
    var queue: seq<Record>
    var deferred: seq<Record>
    var running: bool
    var active: bool
    var closed: bool

    ghost predicate Shows(s: State)
      reads this
    {
      && queue == s.queue && deferred == s.deferred
      && running == s.running && active == s.active && closed == s.closed
    }

    constructor ()
      ensures Shows(Init())
    {
      queue, deferred, running, active, closed := [], [], false, false, false;
    }

    /** defer_queue_locked: the queue moves, record by record, to the end of the deferred chain. */
    method DeferQueue()
      modifies this`queue, this`deferred
      ensures queue == [] && deferred == old(deferred) + old(queue)
    {
      while queue != []
        invariant deferred + queue == old(deferred) + old(queue)
        decreases |queue|
      {
        ghost var was := queue;
        deferred := deferred + [queue[0]];
        queue := queue[1..];
        assert was == [was[0]] + queue;
      }
    }

    /** take_deferred_stopped_locked. */
    method TakeDeferred() returns (batch: seq<Record>)
      modifies this`deferred
      ensures batch == old(deferred) && deferred == []
    {
      batch := deferred;
      deferred := [];
    }

    /** What the step leaves to do at `i` is what the method tells its thread to do. */
    ghost predicate Does(s': State, i: nat, todo: Todo) {
      match todo
      case Nothing => i !in s'.tasks
      case LaunchRunner => i in s'.tasks && s'.tasks[i].Launch?
      case Complete(r) => i in s'.tasks && s'.tasks[i] == Popped(r)
      case Drain(batch) => i in s'.tasks && s'.tasks[i] == Batch(batch, None)
    }

    method Enqueue(r: Record, grows: bool, ghost s: State, ghost th: Thread, ghost n: nat) returns (todo: Todo)
      requires Shows(s) && n !in s.tasks
      modifies this
      ensures Shows(Strand.Enqueue(s, r, th, grows, n)) && Does(Strand.Enqueue(s, r, th, grows, n), n, todo)
    {
      todo := Nothing;
      if !closed && grows {
        queue := queue + [r];
        if !running {
          running := true;
          todo := LaunchRunner;
        }
        return;
      }
      closed := true;
      DeferQueue();
      deferred := deferred + [r];
      if !active {
        active, running := true, true;
        var batch := TakeDeferred();
        todo := Drain(batch);
        assert batch == (s.deferred + s.queue + [r]) + [];
      }
    }

    method Shutdown(ghost s: State, ghost n: nat) returns (todo: Todo)
      requires Shows(s) && n !in s.tasks
      modifies this
      ensures Shows(Strand.Shutdown(s, n)) && Does(Strand.Shutdown(s, n), n, todo)
    {
      todo := Nothing;
      closed := true;
      if !active {
        if queue == [] && deferred == [] {
          running := false;
        } else {
          todo := StartDraining();
        }
      }
    }

    /** Everything queued and deferred becomes one batch, and the caller its drainer. */
    method StartDraining() returns (todo: Todo)
      modifies this`queue, this`deferred, this`running, this`active
      ensures queue == [] && deferred == [] && active && running && todo == Drain(old(deferred) + old(queue))
    {
      DeferQueue();
      var batch := TakeDeferred();
      active, running := true, true;
      todo := Drain(batch);
    }

    /** First critical section of run_one. */
    method BeginRun(ghost s: State, ghost i: nat) returns (todo: Todo)
      requires Shows(s) && i in s.tasks && s.tasks[i].Runner? && (s.queue != [] ==> s.running)
      modifies this
      ensures Shows(RunOne(s, i)) && Does(RunOne(s, i), i, todo)
    {
      todo := Nothing;
      if active {
        return;
      }
      if queue == [] {
        if closed && deferred != [] {
          active, running := true, true;
          var batch := TakeDeferred();
          todo := Drain(batch);
          assert batch == s.deferred + s.queue;
        } else {
          running := false;
        }
      } else {
        active := true;
        if closed {
          todo := StartDraining();
        } else {
          todo := Complete(queue[0]);
          queue := queue[1..];
        }
      }
    }

    /** Second critical section of run_one, after the completion of the record taken. */
    method EndRun(ghost s: State, ghost i: nat, ghost th: Thread) returns (todo: Todo)
      requires Shows(s) && i in s.tasks && s.tasks[i].Completing? && s.active && s.running
      modifies this
      ensures Shows(EndTurn(s, i, th)) && Does(EndTurn(s, i, th), i, todo)
    {
      todo := Nothing;
      if closed && (queue != [] || deferred != []) {
        todo := StartDraining();
      } else {
        active := false;
        if queue == [] {
          running := false;
        } else {
          todo := LaunchRunner;
        }
      }
    }

    /** Critical section of complete_stopped_batch when its batch has run dry. */
    method RefillBatch(ghost s: State, ghost i: nat) returns (todo: Todo)
      requires Shows(s) && i in s.tasks && s.tasks[i] == Batch([], None)
      modifies this
      ensures Shows(Refill(s, i)) && Does(Refill(s, i), i, todo)
    {
      DeferQueue();
      var batch := TakeDeferred();
      if batch == [] {
        active, running := false, false;
        todo := Nothing;
      } else {
        todo := Drain(batch);
      }
    }
  }

  /** The loop over a detached batch: every record once, in order. */
  method CompleteBatch(batch: seq<Record>) returns (begun: seq<Event>)
    ensures Records(begun) == batch && forall e | e in begun :: e.kind == Stopped
  {
    begun := [];
    var rest := batch;
    while rest != []
      invariant Records(begun) + rest == batch
      invariant forall e | e in begun :: e.kind == Stopped
      decreases |rest|
    {
      ghost var was := rest;
      begun := begun + [Event(rest[0], Stopped)];
      rest := rest[1..];
      assert was == [was[0]] + rest;
      assert Records(begun) == Records(begun[..|begun| - 1]) + [was[0]];
    }
  }
}
