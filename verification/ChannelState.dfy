/**
  The channel object itself: buffer, flags and two linked queues, updated in place under the
  lock.  Each operation is shown to do to the object what the corresponding step does to the
  channel's state.  The state and the number of the new task are ghost; the values a record's
  stop flag has when it is read, and whether the buffer can grow, are parameters.
 */
module ChannelState {
  import opened Channel
  import opened ChannelProofs
  import opened RecordQueue

  /** A queue none of whose parts were written to is still a queue. */
  twostate lemma Untouched(q: RecordQueue.Queue)
    requires old(q.Valid()) && unchanged(q) && forall r | r in q.nodes :: unchanged(r)
    ensures q.Valid()
  {
    forall k | 0 <= k < |q.nodes| ensures LinkOk(q.nodes, k) {
      assert old(LinkOk(q.nodes, k)) && q.nodes[k] in q.nodes;
    }
  }

  /** What is left to complete after the lock is released. */
  datatype Actions = Actions(recvValue: Record?, sendValue: Record?, sendError: Record?,
                             recvStopped: Record?, sendStopped: Record?)
  {
    /** The order in which run() completes. */
    ghost function Order(): seq<nat> {
      One(recvValue) + One(sendValue) + One(sendError) + One(recvStopped) + One(sendStopped)
    }
  }

  const NOTHING := Actions(null, null, null, null, null)

  ghost function One(r: Record?): seq<nat> { if r == null then [] else [r.id] }

  class Core {
    const capacity: nat
    var closed: bool
    var stopped: bool
    var buffer: seq<Item>
    const sends: RecordQueue.Queue
    const recvs: RecordQueue.Queue

    ghost predicate Valid()
      reads this, sends, recvs, sends.nodes, recvs.nodes
    {
      && sends != recvs && sends.Valid() && recvs.Valid()
      && (forall r | r in sends.nodes :: r !in recvs.nodes)
      && (forall r | r in recvs.nodes :: r !in sends.nodes)
    }

    ghost function Repr(): set<object>
      reads this, sends, recvs
    {
      {this, sends, recvs} + (set r | r in sends.nodes) + (set r | r in recvs.nodes)
    }

    /** The object is what state `s` describes. */
    ghost predicate Shows(s: State)
      reads this, sends, recvs, sends.nodes, recvs.nodes
    {
      && Valid()
      && capacity == s.capacity && closed == s.closed && stopped == s.stopped && buffer == s.buffer
      && IdsOf(sends.nodes) == s.sends && IdsOf(recvs.nodes) == s.recvs
      && (forall r | r in sends.nodes :: r.item == Some(ItemOf(s.recs, r.id)))
    }

    constructor (capacity: nat)
      ensures Shows(Init(capacity)) && fresh(Repr())
    {
      this.capacity := capacity;
      closed, stopped, buffer := false, false, [];
      sends := new RecordQueue.Queue();
      recvs := new RecordQueue.Queue();
      new;
    }

    method PopSend(ghost s: State) returns (send: Record)
      requires Shows(s) && s.sends != []
      modifies sends, sends.nodes
      ensures Shows(s.(sends := s.sends[1..])) && send.id == s.sends[0] && send.item == Some(ItemOf(s.recs, send.id))
      ensures Repr() <= old(Repr()) && send !in sends.nodes && send !in recvs.nodes
    {
      hide RecordQueue.Queue.Valid;
      assert IdsOf(sends.nodes)[0] == sends.nodes[0].id;
      send := sends.PopFront();
      assert IdsOf(sends.nodes) == s.sends[1..];
      Untouched(recvs);
    }

    method PopRecv(ghost s: State) returns (recv: Record)
      requires Shows(s) && s.recvs != []
      modifies recvs, recvs.nodes
      ensures Shows(s.(recvs := s.recvs[1..])) && recv.id == s.recvs[0]
      ensures Repr() <= old(Repr()) && recv in old(Repr()) && recv !in sends.nodes && recv !in recvs.nodes
    {
      hide RecordQueue.Queue.Valid;
      assert IdsOf(recvs.nodes)[0] == recvs.nodes[0].id;
      recv := recvs.PopFront();
      assert IdsOf(recvs.nodes) == s.recvs[1..];
      Untouched(sends);
    }

    method PushSend(r: Record, ghost s: State)
      requires Shows(s) && r !in sends.nodes && r !in recvs.nodes && r.item == Some(ItemOf(s.recs, r.id))
      modifies sends, sends.nodes, r`next
      ensures Shows(s.(sends := s.sends + [r.id])) && Repr() <= old(Repr()) + {r}
      ensures old(Unique(r)) ==> Unique(r)
    {
      hide RecordQueue.Queue.Valid;
      sends.PushBack(r);
      assert IdsOf(sends.nodes) == s.sends + [r.id];
      Untouched(recvs);
    }

    method PushRecv(r: Record, ghost s: State)
      requires Shows(s) && r !in sends.nodes && r !in recvs.nodes
      modifies recvs, recvs.nodes, r`next
      ensures Shows(s.(recvs := s.recvs + [r.id])) && Repr() <= old(Repr()) + {r}
      ensures old(Unique(r)) ==> Unique(r)
    {
      hide RecordQueue.Queue.Valid;
      recvs.PushBack(r);
      assert IdsOf(recvs.nodes) == s.recvs + [r.id];
      Untouched(sends);
    }

    /** Identities are identities: no other queued record has this one's. */
    ghost predicate Unique(r: Record)
      reads this, sends, recvs
    {
      && (forall x | x in sends.nodes :: x.id == r.id ==> x == r)
      && (forall x | x in recvs.nodes :: x.id == r.id ==> x == r)
    }

    method RemoveSend(r: Record, ghost s: State) returns (removed: Record?)
      requires Shows(s) && Unique(r)
      modifies sends, sends.nodes
      ensures (removed != null <==> r.id in s.sends) && (removed != null ==> removed == r)
      ensures Shows(s.(sends := Without(s.sends, r.id))) && Repr() <= old(Repr())
    {
      hide RecordQueue.Queue.Valid;
      InIds(sends.nodes, r);
      DropIsWithout(sends.nodes, r);
      DropKeeps(sends.nodes, r);
      removed := sends.Remove(r);
      Untouched(recvs);
    }

    method RemoveRecv(r: Record, ghost s: State) returns (removed: Record?)
      requires Shows(s) && Unique(r)
      modifies recvs, recvs.nodes
      ensures (removed != null <==> r.id in s.recvs) && (removed != null ==> removed == r)
      ensures Shows(s.(recvs := Without(s.recvs, r.id))) && Repr() <= old(Repr())
    {
      hide RecordQueue.Queue.Valid;
      InIds(recvs.nodes, r);
      DropIsWithout(recvs.nodes, r);
      DropKeeps(recvs.nodes, r);
      removed := recvs.Remove(r);
      Untouched(sends);
    }

    /** Both queues are emptied and their chains completed, receivers first. */
    method DetachAll(ghost s: State) returns (order: seq<nat>)
      requires Shows(s)
      modifies Repr()
      ensures Shows(s.(sends := [], recvs := [])) && order == s.recvs + s.sends
      ensures Repr() <= old(Repr())
    {
      ghost var sendNodes, recvNodes := sends.nodes, recvs.nodes;
      var sendChain := sends.TakeAll();
      var recvChain := recvs.TakeAll();
      assert Chain(recvNodes) && Chain(sendNodes);
      var first := CompleteChain(recvChain, recvNodes);
      assert Chain(sendNodes) by {
        forall k | 0 <= k < |sendNodes| ensures LinkOk(sendNodes, k) {
          assert old(LinkOk(sendNodes, k)) && sendNodes[k] in sendNodes;
        }
      }
      var second := CompleteChain(sendChain, sendNodes);
      order := first + second;
    }

    // Small steps on a shown state, so that the operations below need not look inside it.

    lemma Fields(s: State)
      requires Shows(s)
      ensures capacity == s.capacity && closed == s.closed && stopped == s.stopped && buffer == s.buffer
      ensures forall r | r in Repr() && r is Record :: (r as Record).id in s.sends || (r as Record).id in s.recvs
    {
      forall r | r in sends.nodes ensures r.id in s.sends {
        var k :| 0 <= k < |sends.nodes| && sends.nodes[k] == r;
        assert IdsOf(sends.nodes)[k] == r.id;
      }
      forall r | r in recvs.nodes ensures r.id in s.recvs {
        var k :| 0 <= k < |recvs.nodes| && recvs.nodes[k] == r;
        assert IdsOf(recvs.nodes)[k] == r.id;
      }
    }

    /** Two states with the same locked part. */
    lemma SameView(s: State, s': State)
      requires Shows(s)
      requires s'.capacity == s.capacity && s'.closed == s.closed && s'.stopped == s.stopped
      requires s'.buffer == s.buffer && s'.sends == s.sends && s'.recvs == s.recvs
      requires forall id | id in s.sends :: ItemOf(s'.recs, id) == ItemOf(s.recs, id)
      ensures Shows(s')
    {
      forall r | r in sends.nodes ensures r.item == Some(ItemOf(s'.recs, r.id)) {
        var k :| 0 <= k < |sends.nodes| && sends.nodes[k] == r;
        assert IdsOf(sends.nodes)[k] == r.id;
      }
    }

    method SetBuffer(b: seq<Item>, ghost s: State)
      requires Shows(s)
      modifies this`buffer
      ensures Shows(s.(buffer := b)) && buffer == b && Repr() == old(Repr())
    {
      buffer := b;
    }

    method Prepare(recv: Record, item: Item, ghost s: State)
      requires Shows(s) && recv !in sends.nodes && recv !in recvs.nodes
      modifies recv`item
      ensures Shows(s) && recv.item == Some(item) && Repr() == old(Repr())
    {
      recv.item := Some(item);
      assert forall r | r in sends.nodes :: r != recv;
      Untouched(sends);
      Untouched(recvs);
    }

    method NoSends(ghost s: State) returns (none: bool)
      requires Shows(s)
      ensures Shows(s) && (none <==> s.sends == [])
    {
      none := sends.Empty();
    }

    method NoRecvs(ghost s: State) returns (none: bool)
      requires Shows(s)
      ensures Shows(s) && (none <==> s.recvs == [])
    {
      none := recvs.Empty();
    }

    // ----- Operations

    /** start_send.  A record that queued itself leaves again if its flag is up at the second look. */
    method StartSend(r: Record, flag: bool, flagAgain: bool, grows: bool, ghost s: State, ghost n: nat)
      returns (a: Actions)
      requires Shows(s) && Known(s) && s.recheck.None? && r.id in s.recs && s.recs[r.id].Send? && Unique(r)
      requires r.id !in s.sends && r.id !in s.recvs && flag == StopRequested(s.recs[r.id])
      requires r.item == Some(Item(|s.submitted|, s.recs[r.id].value))
      modifies Repr(), r
      ensures Started(a, r, flagAgain, Channel.StartSend(s, r.id, grows, n), n)
    {
      Fields(s);
      assert r !in Repr();
      ghost var s' := Channel.StartSend(s, r.id, grows, n);
      StartSendView(s, r.id, grows, n, s');
      hide Shows, Valid, Started, Channel.StartSend, Known, ItemOf;
      var noRecvs := NoRecvs(s);
      var noSends := NoSends(s);
      if stopped || closed || flag {
        SameView(s, s');
        a := NOTHING.(sendStopped := r);
        SoloStart(a, r, flagAgain, s', n);
      } else if !noRecvs {
        var recv := HandToReceiver(r.item.value, s, s');
        a := NOTHING.(recvValue := recv, sendValue := r);
        PairStart(a, r, flagAgain, s', n);
      } else if noSends && |buffer| < capacity {
        if grows {
          SetBuffer(buffer + [r.item.value], s);
          SameView(s.(buffer := s'.buffer), s');
          a := NOTHING.(sendValue := r);
        } else {
          SameView(s, s');
          a := NOTHING.(sendError := r);
        }
        SoloStart(a, r, flagAgain, s', n);
      } else {
        a := QueueSend(r, flagAgain, s, s', n);
      }
    }

    lemma SoloStart(a: Actions, r: Record, flagAgain: bool, s': State, n: nat)
      requires Shows(s') && s'.recheck.None? && n in s'.tasks && s'.tasks[n] == [r.id]
      requires || a == NOTHING.(sendStopped := r) || a == NOTHING.(sendValue := r) || a == NOTHING.(sendError := r)
               || a == NOTHING.(recvStopped := r)
      ensures Started(a, r, flagAgain, s', n)
    {
      hide Shows;
    }

    lemma PairStart(a: Actions, r: Record, flagAgain: bool, s': State, n: nat)
      requires Shows(s') && s'.recheck.None? && n in s'.tasks && a.recvValue != null && a.sendValue != null
      requires a == NOTHING.(recvValue := a.recvValue, sendValue := a.sendValue)
      requires s'.tasks[n] == [a.recvValue.id, a.sendValue.id]
      requires a.recvValue.id in s'.recs && s'.recs[a.recvValue.id].Recv?
      requires s'.recs[a.recvValue.id].got == a.recvValue.item
      ensures Started(a, r, flagAgain, s', n)
    {
      hide Shows;
    }

    /** The first waiting receiver gets `item`. */
    method HandToReceiver(item: Item, ghost s: State, ghost s': State) returns (recv: Record)
      requires Shows(s) && s.recvs != [] && s'.recvs == s.recvs[1..] && s'.sends == s.sends && s'.buffer == s.buffer
      requires s'.capacity == s.capacity && s'.closed == s.closed && s'.stopped == s.stopped
      requires forall k | k in s.sends :: ItemOf(s'.recs, k) == ItemOf(s.recs, k)
      modifies Repr()
      ensures Shows(s') && recv.id == s.recvs[0] && recv.item == Some(item)
    {
      hide Shows, Valid;
      recv := PopRecv(s);
      Prepare(recv, item, s.(recvs := s.recvs[1..]));
      SameView(s.(recvs := s.recvs[1..]), s');
    }

    /** What a start leaves behind: the step's state, or that of a start that withdrew. */
    ghost predicate Started(a: Actions, r: Record, flagAgain: bool, s': State, n: nat)
      reads this, sends, recvs, sends.nodes, recvs.nodes, a.recvValue
    {
      if s'.recheck.None? then
        && Shows(s') && n in s'.tasks && a.Order() == s'.tasks[n]
        && (a.recvValue != null ==> a.recvValue.id in s'.recs && s'.recs[a.recvValue.id].Recv?
                                    && s'.recs[a.recvValue.id].got == a.recvValue.item)
      else if flagAgain then
        r.id in s'.recs && Shows(StopOne(s'.(recheck := None), r.id, n)) && a.Order() == [r.id]
      else Shows(s') && a == NOTHING
    }

    method QueueSend(r: Record, flagAgain: bool, ghost s: State, ghost s': State, ghost n: nat) returns (a: Actions)
      requires Shows(s) && r !in sends.nodes && r !in recvs.nodes && Unique(r)
      requires s'.recheck == Some(r.id) && r.id in s'.recs && s'.recs[r.id].Send? && s'.sends == s.sends + [r.id]
      requires r.id !in s.sends && r.id !in s.recvs && r.item == Some(ItemOf(s'.recs, r.id))
      requires s' == s.(sends := s'.sends, recs := s'.recs, submitted := s'.submitted, recheck := s'.recheck,
                        failures := s'.failures)
      requires forall id | id in s.sends :: ItemOf(s'.recs, id) == ItemOf(s.recs, id)
      modifies Repr(), r
      ensures Started(a, r, flagAgain, s', n)
    {
      hide Shows, Valid;
      ghost var mid := s'.(sends := s.sends);
      SameView(s, mid);
      PushSend(r, mid);
      a := NOTHING;
      SameView(mid.(sends := mid.sends + [r.id]), s');
      if flagAgain {
        ghost var t := StopOne(s'.(recheck := None), r.id, n);
        var removed := RemoveSend(r, s');
        a := a.(sendStopped := removed);
        SameView(s'.(sends := t.sends), t);
      }
    }

    method PromoteOneSend(grows: bool, ghost s: State, ghost n: nat) returns (moved: Record?, failed: Record?)
      requires Shows(s) && (s.sends != [] ==> s.sends[0] in s.recs)
      modifies Repr()
      ensures Shows(Promote(s, grows, n)) && One(moved) + One(failed) == Promoted(s)
      ensures Repr() <= old(Repr())
    {
      Fields(s);
      ghost var s' := Promote(s, grows, n);
      PromoteView(s, grows, n, s');
      hide Shows, Valid, Promote, ItemOf;
      moved, failed := null, null;
      var noSends := NoSends(s);
      if noSends || |buffer| >= capacity {
        SameView(s, s');
      } else {
        var send := PopSend(s);
        ghost var mid := s.(sends := s.sends[1..]);
        if grows {
          SetBuffer(buffer + [send.item.value], mid);
          moved := send;
          SameView(mid.(buffer := s'.buffer), s');
        } else {
          failed := send;
          SameView(mid, s');
        }
      }
    }

    /** start_recv. */
    method StartRecv(r: Record, flag: bool, flagAgain: bool, grows: bool, ghost s: State, ghost n: nat)
      returns (a: Actions)
      requires Shows(s) && Known(s) && s.recheck.None? && r.id in s.recs && s.recs[r.id].Recv? && Unique(r)
      requires r.id !in s.sends && r.id !in s.recvs && flag == StopRequested(s.recs[r.id])
      modifies Repr(), r
      ensures Started(a, r, flagAgain, Channel.StartRecv(s, r.id, grows, n), n)
    {
      Fields(s);
      assert r !in Repr();
      ghost var s' := Channel.StartRecv(s, r.id, grows, n);
      StartRecvView(s, r.id, grows, n, s');
      hide Shows, Valid, Started, Channel.StartRecv, Known, ItemOf;
      var noSends := NoSends(s);
      if buffer != [] {
        a := RecvBuffered(r, flagAgain, grows, s, n, s');
      } else if !noSends {
        var send := PopSend(s);
        Prepare(r, send.item.value, s.(sends := s.sends[1..]));
        SameView(s.(sends := s.sends[1..]), s');
        a := NOTHING.(recvValue := r, sendValue := send);
        PairStart(a, r, flagAgain, s', n);
      } else if stopped || closed || flag {
        SameView(s, s');
        a := NOTHING.(recvStopped := r);
        SoloStart(a, r, flagAgain, s', n);
      } else {
        a := QueueRecv(r, flagAgain, s, s', n);
      }
    }

    /** The head of the buffer leaves, and a queued send takes the free place. */
    method TakeBuffered(grows: bool, ghost s: State, ghost s0: State, ghost n: nat)
      returns (item: Item, moved: Record?, failed: Record?)
      requires Shows(s) && s.buffer != [] && (s0.sends != [] ==> s0.sends[0] in s0.recs)
      requires s0.capacity == s.capacity && s0.closed == s.closed && s0.stopped == s.stopped
      requires s0.buffer == s.buffer[1..] && s0.sends == s.sends && s0.recvs == s.recvs
      requires forall id | id in s.sends :: ItemOf(s0.recs, id) == ItemOf(s.recs, id)
      modifies Repr()
      ensures item == s.buffer[0] && Shows(Promote(s0, grows, n)) && One(moved) + One(failed) == Promoted(s0)
    {
      Fields(s);
      hide Shows, Valid, Promote, Promoted, ItemOf;
      item := buffer[0];
      SetBuffer(buffer[1..], s);
      SameView(s.(buffer := s.buffer[1..]), s0);
      moved, failed := PromoteOneSend(grows, s0, n);
    }

    method RecvBuffered(r: Record, flagAgain: bool, grows: bool, ghost s: State, ghost n: nat, ghost s': State)
      returns (a: Actions)
      requires Shows(s) && Known(s) && s.recheck.None? && r.id in s.recs && s.recs[r.id].Recv? && s.buffer != []
      requires r.id !in s.sends && r !in Repr() && buffer == s.buffer
      requires s' == Channel.StartRecv(s, r.id, grows, n)
      modifies Repr(), r
      ensures Started(a, r, flagAgain, s', n)
    {
      ghost var s0 := Deliver(s.(buffer := s.buffer[1..]), s.buffer[0], r.id, n);
      assert s.sends != [] ==> s.sends[0] in s.sends;
      PromoteKeeps(s0, grows, n, r.id);
      assert s' == Promote(s0, grows, n).(tasks := s.tasks[n := [r.id] + Promoted(s0)]);
      hide Shows, Valid, Known, Promote, Promoted, Started, Channel.StartRecv;
      Prepare(r, buffer[0], s);
      var item, moved, failed := TakeBuffered(grows, s, s0, n);
      SameView(Promote(s0, grows, n), s');
      a := NOTHING.(recvValue := r, sendValue := moved, sendError := failed);
      BufferedStart(a, r, flagAgain, s', n);
    }

    lemma BufferedStart(a: Actions, r: Record, flagAgain: bool, s': State, n: nat)
      requires Shows(s') && s'.recheck.None? && n in s'.tasks
      requires a == NOTHING.(recvValue := r, sendValue := a.sendValue, sendError := a.sendError)
      requires s'.tasks[n] == [r.id] + (One(a.sendValue) + One(a.sendError))
      requires r.id in s'.recs && s'.recs[r.id].Recv? && s'.recs[r.id].got == r.item
      ensures Started(a, r, flagAgain, s', n)
    {
      hide Shows;
    }

    method QueueRecv(r: Record, flagAgain: bool, ghost s: State, ghost s': State, ghost n: nat) returns (a: Actions)
      requires Shows(s) && r !in sends.nodes && r !in recvs.nodes && Unique(r)
      requires s'.recheck == Some(r.id) && r.id in s'.recs && s'.recs[r.id].Recv? && s'.recvs == s.recvs + [r.id]
      requires s' == s.(recvs := s'.recvs, recs := s'.recs, recheck := s'.recheck)
      requires forall id | id in s.sends :: ItemOf(s'.recs, id) == ItemOf(s.recs, id)
      modifies Repr(), r
      ensures Started(a, r, flagAgain, s', n)
    {
      hide Shows, Valid;
      ghost var mid := s'.(recvs := s.recvs);
      SameView(s, mid);
      PushRecv(r, mid);
      a := NOTHING;
      SameView(mid.(recvs := mid.recvs + [r.id]), s');
      if flagAgain {
        ghost var t := StopOne(s'.(recheck := None), r.id, n);
        var removed := RemoveRecv(r, s');
        a := a.(recvStopped := removed);
        SameView(s'.(recvs := t.recvs), t);
      }
    }

    /** try_send: false when refused, and an exception when the buffer cannot grow. */
    method TrySend(item: Item, grows: bool, ghost s: State, ghost n: nat)
      returns (accepted: bool, thrown: bool, recv: Record?)
      requires Shows(s) && Known(s) && s.recheck.None? && item.ticket == |s.submitted| && n !in s.tasks
      requires |s.submitted| !in s.refused
      modifies Repr()
      ensures var s' := Channel.TrySend(s, item.value, grows, n);
        && Shows(s') && (accepted <==> |s.submitted| !in s'.refused)
        && (thrown ==> !accepted && !grows)
        && One(recv) == (if n in s'.tasks then s'.tasks[n] else [])
        && (recv != null ==> accepted && recv.item == Some(item))
    {
      Fields(s);
      ghost var s' := Channel.TrySend(s, item.value, grows, n);
      TrySendView(s, item.value, grows, n, s');
      hide Shows, Valid, Channel.TrySend, Known, ItemOf;
      accepted, thrown, recv := false, false, null;
      var noRecvs := NoRecvs(s);
      var noSends := NoSends(s);
      if stopped || closed {
        SameView(s, s');
      } else if !noRecvs {
        recv := HandToReceiver(item, s, s');
        accepted := true;
      } else if noSends && |buffer| < capacity {
        if grows {
          SetBuffer(buffer + [item], s);
          SameView(s.(buffer := s'.buffer), s');
          accepted := true;
        } else {
          SameView(s, s');
          thrown := true;
        }
      } else {
        SameView(s, s');
      }
    }

    /** try_recv. */
    method TryRecv(grows: bool, ghost s: State, ghost n: nat)
      returns (result: Option<Item>, moved: Record?, failed: Record?)
      requires Shows(s) && Known(s) && s.recheck.None? && n !in s.tasks
      modifies Repr()
      ensures var s' := Channel.TryRecv(s, grows, n);
        && Shows(s') && One(moved) + One(failed) == (if n in s'.tasks then s'.tasks[n] else [])
        && s'.received == s.received + (if result.Some? then [Delivery(result.value, None)] else [])
    {
      Fields(s);
      ghost var s' := Channel.TryRecv(s, grows, n);
      ghost var s0 := s.(buffer := if s.buffer == [] then [] else s.buffer[1..]);
      if s.buffer == [] { TryRecvView(s, grows, n, s'); } else { TryRecvBufferedView(s, grows, n, s', s0); }
      hide Shows, Valid, Channel.TryRecv, Known, ItemOf, Promote, Promoted;
      result, moved, failed := None, null, null;
      var noSends := NoSends(s);
      if buffer != [] {
        var item;
        item, moved, failed := TakeBuffered(grows, s, s0, n);
        result := Some(item);
        SameView(Promote(s0, grows, n), s');
      } else if !noSends {
        var send := PopSend(s);
        result, moved := send.item, send;
        SameView(s.(sends := s.sends[1..]), s');
      }
    }

    /** close: both queues are detached and completed, the buffer is left to be drained. */
    method Close(ghost s: State, ghost n: nat) returns (order: seq<nat>)
      requires Shows(s)
      modifies Repr()
      ensures Shows(Channel.Close(s, n)) && order == Channel.Close(s, n).tasks[n]
    {
      SetFlags(true, stopped, s);
      order := DetachAll(s.(closed := true));
      hide Valid;
    }

    /** request_stop: the buffer is thrown away too. */
    method RequestStop(ghost s: State, ghost n: nat) returns (order: seq<nat>)
      requires Shows(s)
      modifies Repr()
      ensures Shows(Channel.RequestStop(s, n)) && order == Channel.RequestStop(s, n).tasks[n]
    {
      SetFlags(closed, true, s);
      SetBuffer([], s.(stopped := true));
      order := DetachAll(s.(stopped := true, buffer := []));
    }

    method SetFlags(c: bool, st: bool, ghost s: State)
      requires Shows(s)
      modifies this`closed, this`stopped
      ensures Shows(s.(closed := c, stopped := st)) && closed == c && stopped == st && Repr() == old(Repr())
    {
      closed, stopped := c, st;
    }

    /** cancel_send and cancel_recv. */
    method Cancel(r: Record, isSend: bool, ghost s: State, ghost n: nat) returns (removed: Record?)
      requires Shows(s) && Unique(r) && r.id in s.recs && isSend == s.recs[r.id].Send? && n !in s.tasks
      modifies Repr()
      ensures var s' := Channel.Cancel(s, r.id, n);
        Shows(s') && One(removed) == (if n in s'.tasks then s'.tasks[n] else [])
    {
      ghost var s' := Channel.Cancel(s, r.id, n);
      CancelView(s, r.id, n, s');
      hide Shows, Valid, Channel.Cancel, ItemOf, Without;
      if isSend {
        removed := RemoveSend(r, s);
        SameView(s.(sends := Without(s.sends, r.id)), s');
      } else {
        removed := RemoveRecv(r, s);
        SameView(s.(recvs := Without(s.recvs, r.id)), s');
      }
    }
  }

  /** What start_send does to the locked part of the state. */
  lemma StartSendView(s: State, id: nat, grows: bool, n: nat, s': State)
    requires Known(s) && s.recheck.None? && id in s.recs && s.recs[id].Send? && id !in s.sends && id !in s.recvs
    requires s' == Channel.StartSend(s, id, grows, n)
    ensures s'.capacity == s.capacity && s'.closed == s.closed && s'.stopped == s.stopped
    ensures forall k | k in s.sends :: ItemOf(s'.recs, k) == ItemOf(s.recs, k)
    ensures var item := Item(|s.submitted|, s.recs[id].value);
      if s.stopped || s.closed || StopRequested(s.recs[id]) then Left(s, s', n, [id])
      else if s.recvs != [] then
        && s'.buffer == s.buffer && s'.sends == s.sends && s'.recvs == s.recvs[1..] && s'.recheck.None?
        && n in s'.tasks && s'.tasks[n] == [s.recvs[0], id]
        && s.recvs[0] in s'.recs && s'.recs[s.recvs[0]].Recv? && s'.recs[s.recvs[0]].got == Some(item)
      else if s.sends == [] && |s.buffer| < s.capacity then
        Left(s.(buffer := if grows then s.buffer + [item] else s.buffer), s', n, [id])
      else
        && s' == s.(sends := s.sends + [id], recs := s'.recs, submitted := s'.submitted, recheck := Some(id),
                    failures := s'.failures)
        && id in s'.recs && s'.recs[id].Send? && ItemOf(s'.recs, id) == item
  {
    if s.recvs != [] { assert s.recvs[0] in s.recvs; }
  }

  lemma PromoteView(s: State, grows: bool, n: nat, s': State)
    requires (s.sends != [] ==> s.sends[0] in s.recs) && s' == Promote(s, grows, n)
    ensures s'.capacity == s.capacity && s'.closed == s.closed && s'.stopped == s.stopped && s'.recvs == s.recvs
    ensures forall k | k in s.sends :: ItemOf(s'.recs, k) == ItemOf(s.recs, k)
    ensures if s.sends == [] || |s.buffer| >= s.capacity then s' == s
            else s'.sends == s.sends[1..]
                 && s'.buffer == if grows then s.buffer + [ItemOf(s.recs, s.sends[0])] else s.buffer
  {
  }

  lemma PromoteKeeps(s: State, grows: bool, n: nat, id: nat)
    requires (s.sends != [] ==> s.sends[0] in s.recs) && id in s.recs && id !in s.sends
    ensures id in Promote(s, grows, n).recs && Promote(s, grows, n).recs[id] == s.recs[id]
    ensures Promote(s, grows, n).recheck == s.recheck
  {
  }

  /** What start_recv does to the locked part of the state, when it does not take from the buffer. */
  lemma StartRecvView(s: State, id: nat, grows: bool, n: nat, s': State)
    requires Known(s) && s.recheck.None? && id in s.recs && s.recs[id].Recv? && id !in s.sends && id !in s.recvs
    requires s' == Channel.StartRecv(s, id, grows, n)
    ensures s.buffer == [] ==>
      && s'.capacity == s.capacity && s'.closed == s.closed && s'.stopped == s.stopped && s'.buffer == s.buffer
      && (forall k | k in s.sends :: ItemOf(s'.recs, k) == ItemOf(s.recs, k))
      && (if s.sends != [] then
            && s'.sends == s.sends[1..] && s'.recvs == s.recvs && s'.recheck.None?
            && n in s'.tasks && s'.tasks[n] == [id, s.sends[0]]
            && id in s'.recs && s'.recs[id].Recv? && s'.recs[id].got == Some(ItemOf(s.recs, s.sends[0]))
          else if s.stopped || s.closed || StopRequested(s.recs[id]) then Left(s, s', n, [id])
          else
            && s' == s.(recvs := s.recvs + [id], recs := s'.recs, recheck := Some(id))
            && id in s'.recs && s'.recs[id].Recv?)
  {
    if s.sends != [] { assert s.sends[0] in s.sends; }
  }

  lemma TrySendView(s: State, value: int, grows: bool, n: nat, s': State)
    requires Known(s) && s.recheck.None? && n !in s.tasks && |s.submitted| !in s.refused
    requires s' == Channel.TrySend(s, value, grows, n)
    ensures s'.capacity == s.capacity && s'.closed == s.closed && s'.stopped == s.stopped && s'.sends == s.sends
    ensures forall k | k in s.sends :: ItemOf(s'.recs, k) == ItemOf(s.recs, k)
    ensures var item := Item(|s.submitted|, value);
      var open := !s.stopped && !s.closed;
      if open && s.recvs != [] then
        && s'.buffer == s.buffer && s'.recvs == s.recvs[1..] && n in s'.tasks && s'.tasks[n] == [s.recvs[0]]
        && |s.submitted| !in s'.refused
      else if open && s.sends == [] && |s.buffer| < s.capacity && grows then
        && s'.buffer == s.buffer + [item] && s'.recvs == s.recvs && n !in s'.tasks && |s.submitted| !in s'.refused
      else
        && s'.buffer == s.buffer && s'.recvs == s.recvs && n !in s'.tasks && |s.submitted| in s'.refused
  {
    if s.recvs != [] { assert s.recvs[0] in s.recvs; }
    forall k | k in s.sends ensures ItemOf(s'.recs, k) == ItemOf(s.recs, k) {
    }
  }

  /** What try_recv does to the locked part of the state: with a buffered value, and without. */
  lemma TryRecvBufferedView(s: State, grows: bool, n: nat, s': State, s0: State)
    requires Known(s) && n !in s.tasks && s.buffer != [] && s' == Channel.TryRecv(s, grows, n)
    requires s0 == s.(buffer := s.buffer[1..])
    ensures s.sends != [] ==> s.sends[0] in s.recs
    ensures var t := Promote(s0, grows, n);
      && s'.capacity == t.capacity && s'.closed == t.closed && s'.stopped == t.stopped
      && s'.buffer == t.buffer && s'.sends == t.sends && s'.recvs == t.recvs && s'.recs == t.recs
      && n in s'.tasks && s'.tasks[n] == Promoted(s0)
      && s'.received == s.received + [Delivery(s.buffer[0], None)]
  {
    if s.sends != [] { assert s.sends[0] in s.sends; }
  }

  lemma TryRecvView(s: State, grows: bool, n: nat, s': State)
    requires Known(s) && n !in s.tasks && s.buffer == [] && s' == Channel.TryRecv(s, grows, n)
    ensures if s.sends != [] then
        && s'.capacity == s.capacity && s'.closed == s.closed && s'.stopped == s.stopped && s'.buffer == s.buffer
        && s'.sends == s.sends[1..] && s'.recvs == s.recvs && n in s'.tasks && s'.tasks[n] == [s.sends[0]]
        && (forall k | k in s.sends :: ItemOf(s'.recs, k) == ItemOf(s.recs, k))
        && s'.received == s.received + [Delivery(ItemOf(s.recs, s.sends[0]), None)]
      else s' == s
  {
    if s.sends != [] { assert s.sends[0] in s.sends; }
  }

  lemma CancelView(s: State, id: nat, n: nat, s': State)
    requires id in s.recs && n !in s.tasks && s' == Channel.Cancel(s, id, n)
    ensures s'.capacity == s.capacity && s'.closed == s.closed && s'.stopped == s.stopped && s'.buffer == s.buffer
    ensures forall k | k in s.sends :: ItemOf(s'.recs, k) == ItemOf(s.recs, k)
    ensures var q := if s.recs[id].Send? then s.sends else s.recvs;
      && (if id in q then n in s'.tasks && s'.tasks[n] == [id] else n !in s'.tasks)
      && (if s.recs[id].Send? then s'.sends == Without(s.sends, id) && s'.recvs == s.recvs
          else s'.recvs == Without(s.recvs, id) && s'.sends == s.sends)
  {
    var q := if s.recs[id].Send? then s.sends else s.recvs;
    var s0 := s.(recs := s.recs[id := WithCallback(s.recs[id], Fired)]);
    SameItems(s.recs, id, WithCallback(s.recs[id], Fired));
    hide ItemOf;
    if id !in q {
      WithoutAbsent(q, id);
      hide Without;
    } else {
      assert s' == StopOne(s0, id, n);
      hide Channel.Cancel, Without;
      StopOneView(s0, id, n);
    }
  }

  lemma StopOneView(s: State, id: nat, n: nat)
    requires id in s.recs
    ensures var s' := StopOne(s, id, n);
      && s'.capacity == s.capacity && s'.closed == s.closed && s'.stopped == s.stopped && s'.buffer == s.buffer
      && (forall k :: ItemOf(s'.recs, k) == ItemOf(s.recs, k))
      && n in s'.tasks && s'.tasks[n] == [id]
      && (if s.recs[id].Send? then s'.sends == Without(s.sends, id) && s'.recvs == s.recvs
          else s'.recvs == Without(s.recvs, id) && s'.sends == s.sends)
  {
    SameItems(s.recs, id, Moved(s.recs[id], Claimed(n, AsStopped)));
    hide Without, ItemOf;
  }

  /** Moving a record, or its callback, leaves its value alone. */
  lemma SameItems(recs: map<nat, Rec>, id: nat, r: Rec)
    requires id in recs && r == WithCallback(Moved(recs[id], r.place), r.cb)
    ensures forall k :: ItemOf(recs[id := r], k) == ItemOf(recs, k)
  {
  }

  /** Buffer and queues as in `s`, and task `n` makes the calls `ids`. */
  ghost predicate Left(s: State, s': State, n: nat, ids: seq<nat>) {
    && s'.buffer == s.buffer && s'.sends == s.sends && s'.recvs == s.recvs && s'.recheck.None?
    && n in s'.tasks && s'.tasks[n] == ids
  }

  lemma InIds(nodes: seq<Record>, r: Record)
    requires forall x | x in nodes :: x.id == r.id ==> x == r
    ensures r in nodes <==> r.id in IdsOf(nodes)
  {
    if r in nodes {
      var k :| 0 <= k < |nodes| && nodes[k] == r;
      assert IdsOf(nodes)[k] == r.id;
    }
    if r.id in IdsOf(nodes) {
      var k :| 0 <= k < |nodes| && IdsOf(nodes)[k] == r.id;
      assert nodes[k] in nodes;
    }
  }

  lemma {:induction false} DropKeeps(nodes: seq<Record>, r: Record)
    ensures forall x | x in Drop(nodes, r) :: x in nodes
    ensures r !in nodes ==> Drop(nodes, r) == nodes
  {
    if nodes != [] { DropKeeps(nodes[1..], r); }
  }
}
