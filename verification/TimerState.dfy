/**
  The timer's shared state as an object: the queued items, the pending counter and the stop
  flag, updated in place under the lock.  Each operation does to the object what the
  corresponding step does to the timer's state, which is ghost here; deadlines, stop flags and
  the clock are read through parameters.
 */
module TimerState {
  import opened Timer
  import opened TimerProofs

  class Shared {
    var items: seq<nat>
    var pending: nat
    var stop: bool

    ghost predicate Shows(s: State)
      reads this
    {
      items == s.items && pending == s.pending && stop == s.stop
    }

    constructor (ghost now: int)
      ensures Shows(Init(now))
    {
      items, pending, stop := [], 0, false;
    }

    method Enqueue(id: nat, ghost s: State, ghost th: Thread) returns (accepted: bool)
      requires Shows(s) && id in s.ops
      modifies this
      ensures Shows(StartEnqueue(s, id, th)) && (accepted <==> StartEnqueue(s, id, th).ops[id].start.Handed?)
    {
      if stop {
        return false;
      }
      items := items + [id];
      pending := pending + 1;
      accepted := true;
    }

    method Shutdown(ghost s: State)
      requires Shows(s)
      modifies this
      ensures Shows(s.(stop := true))
    {
      stop := true;
    }

    /** Removes a still queued item; false when the worker has it already. */
    method DiscardItem(id: nat, ghost s: State) returns (found: bool)
      requires Shows(s) && id in s.ops && s.ops[id].life.Claimed? && (id in s.items ==> s.pending > 0)
      modifies this
      ensures Shows(Discard(s, id)) && (found <==> Discard(s, id).ops[id].life.Gone?)
    {
      var k := 0;
      while k < |items| && items[k] != id
        invariant 0 <= k <= |items| && id !in items[..k]
      {
        k := k + 1;
      }
      PositionIs(items, id, k);
      if k == |items| {
        return false;
      }
      items := items[..k] + items[k + 1..];
      pending := pending - 1;
      found := true;
    }

    /** Position of the first item whose flag is up. */
    method FindFlagged(flags: set<nat>, ghost s: State) returns (k: nat)
      requires Shows(s) && Known(s.ops, s.items)
      requires forall id | id in s.items :: id in flags <==> s.ops[id].flagged
      ensures k == FirstFlagged(s.ops, s.items)
    {
      k := 0;
      while k < |items| && items[k] !in flags
        invariant 0 <= k <= |items|
        invariant forall j | 0 <= j < k :: !s.ops[items[j]].flagged
      {
        assert items[k] in items;
        k := k + 1;
      }
      assert k < |items| ==> items[k] in items;
    }

    /** Position of the first item of least deadline. */
    method MinElement(deadlines: map<nat, int>, ghost s: State) returns (k: nat)
      requires Shows(s) && Known(s.ops, s.items) && items != []
      requires forall id | id in s.items :: id in deadlines && deadlines[id] == s.ops[id].deadline
      ensures k < |s.items| && k == Earliest(s.ops, s.items)
    {
      k := 0;
      var j := 1;
      while j < |items|
        invariant 0 <= k < j <= |items|
        invariant forall i | 0 <= i < j :: s.ops[items[k]].deadline <= s.ops[items[i]].deadline
        invariant forall i | 0 <= i < k :: s.ops[items[k]].deadline < s.ops[items[i]].deadline
      {
        assert items[j] in items && items[k] in items;
        if deadlines[items[j]] < deadlines[items[k]] {
          k := j;
        }
        j := j + 1;
      }
    }

    /** One round of the worker's loop under the lock: what to deliver, if anything. */
    method NextReady(deadlines: map<nat, int>, flags: set<nat>, now: int, ghost s: State) returns (choice: Choice)
      requires Shows(s) && Known(s.ops, s.items) && now == s.now
      requires forall id | id in s.items :: id in deadlines && deadlines[id] == s.ops[id].deadline
      requires forall id | id in s.items :: id in flags <==> s.ops[id].flagged
      modifies this
      ensures choice == Pick(s) && Shows(Take(s))
    {
      if stop {
        if items == [] {
          return Exit;
        }
        choice := TakeStopped(|items| - 1);
        items := items[..|items| - 1];
        assert items == RemoveAt(s.items, |s.items| - 1);
        return;
      }
      if items == [] {
        return Idle;
      }
      var f := FindFlagged(flags, s);
      if f < |items| {
        choice := TakeStopped(f);
        items := items[..f] + items[f + 1..];
        return;
      }
      var e := MinElement(deadlines, s);
      assert items[e] in items;
      if deadlines[items[e]] <= now {
        choice := TakeValue(e);
        items := items[..e] + items[e + 1..];
        return;
      }
      choice := Sleep;
    }

    /** After a delivery. */
    method FinishOne(ghost s: State) returns (idle: bool)
      requires Shows(s) && s.worker.ToDecrement? && s.pending > 0
      modifies this
      ensures Shows(Decrement(s)) && (idle <==> Decrement(s).pending == 0)
    {
      pending := pending - 1;
      idle := pending == 0;
    }
  }

  lemma {:induction false} PositionIs(items: seq<nat>, id: nat, k: nat)
    requires k <= |items| && id !in items[..k] && (k < |items| ==> items[k] == id)
    ensures Position(items, id) == k
  {
    if k > 0 {
      assert items[..k][0] == items[0];
      assert items[1..][..k - 1] == items[..k][1..];
      PositionIs(items[1..], id, k - 1);
    }
  }
}
