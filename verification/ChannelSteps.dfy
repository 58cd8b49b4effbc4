/**
  The invariant of the bounded channel is kept by every critical section and by everything
  that happens outside the lock.
 */
module ChannelSteps {
  import opened Channel
  import opened ChannelProofs

  lemma InvKnown(s: State)
    requires Places(s)
    ensures Known(s)
  {
    forall t, id | t in s.tasks && id in s.tasks[t] ensures id in s.recs {
      assert TaskOk(s, t);
    }
  }

  // ----- Effects

  function Ids(o: Option<nat>): seq<nat> { if o.Some? then [o.value] else [] }

  function IdSet(o: Option<nat>): set<nat> { if o.Some? then {o.value} else {} }

  /** The send record gets the next ticket and moves to `place`. */
  function Ticketed(s: State, from: Option<nat>, place: Place): map<nat, Rec>
    requires from.Some? ==> from.value in s.recs && s.recs[from.value].Send?
  {
    if from.None? then s.recs
    else s.recs[from.value := Send(s.recs[from.value].value, Some(|s.submitted|), s.recs[from.value].cb, place)]
  }

  /** A new value is submitted, by the send record `from` if any, which is then claimed. */
  ghost predicate Submits(s: State, value: int, from: Option<nat>, how: How, n: nat, s': State) {
    && (from.Some? ==> from.value in s.recs && s.recs[from.value].Send? && s.recs[from.value].place.Ready?
                       && s.recs[from.value].value == value)
    && Gains(s, s', n, Ids(from))
    && s' == s.(submitted := s.submitted + [Submission(value, from)], tasks := s'.tasks,
                recs := Ticketed(s, from, Claimed(n, how)), refused := s'.refused, buffer := s'.buffer)
  }

  lemma SubmitPlaces(s: State, value: int, from: Option<nat>, how: How, n: nat, s': State)
    requires Places(s) && CalledOnce(s) && Submits(s, value, from, how, n, s')
    ensures Places(s') && CalledOnce(s')
  {
    ClaimPlaces(s, s', n, Ids(from));
  }

  lemma SubmitOutcomes(s: State, value: int, from: Option<nat>, how: How, n: nat, s': State)
    requires Outcomes(s) && Submits(s, value, from, how, n, s')
    requires Taken(s) <= Taken(s') && s.refused <= s'.refused
    requires how.AsValue? ==> InItems(Taken(s'), |s.submitted|)
    requires !how.AsValue? ==> |s.submitted| in s'.refused && !how.AsPrepared?
    ensures Outcomes(s')
  {
    TakenGrows(s, s');
    OutcomesFrame(s, s', IdSet(from));
  }

  /** A value is turned away before it got in. */
  lemma RefuseNew(s: State, value: int, from: Option<nat>, how: How, n: nat, s': State)
    requires Core(s) && (how == AsStopped || how == AsError) && Submits(s, value, from, how, n, s')
    requires s'.buffer == s.buffer && s'.refused == s.refused + {|s.submitted|}
    ensures Core(s')
  {
    hide CalledOnce, Outcomes, InOrder, Account;
    SubmitPlaces(s, value, from, how, n, s');
    SubmitOutcomes(s, value, from, how, n, s');
    ItemsFrame(s.recs, s'.recs, s.sends);
    TurnAway(Line(s), s.submitted, s.refused, s.discarded, Submission(value, from));
  }

  /** With nobody queued, a new value enters the buffer. */
  lemma PushNew(s: State, value: int, from: Option<nat>, n: nat, s': State)
    requires Core(s) && s.sends == [] && Submits(s, value, from, AsValue, n, s')
    requires s'.buffer == s.buffer + [Item(|s.submitted|, value)] && s'.refused == s.refused
    ensures Core(s')
  {
    hide Places, CalledOnce, Outcomes, InOrder, Account;
    SubmitPlaces(s, value, from, AsValue, n, s');
    assert Taken(s') == Taken(s) + [Item(|s.submitted|, value)];
    assert Line(s) == Taken(s) && Line(s') == Taken(s');
    JoinLine(Line(s), s.submitted, s.refused, s.discarded, Submission(value, from));
    assert Taken(s')[|Taken(s)|].ticket == |s.submitted|;
    SubmitOutcomes(s, value, from, AsValue, n, s');
  }

  /** A send that found no room queues itself. */
  lemma QueueSend(s: State, id: nat, s': State)
    requires Core(s) && id in s.recs && s.recs[id].Send? && s.recs[id].place.Ready? && !s.recs[id].cb.Fired?
    requires s' == s.(submitted := s.submitted + [Submission(s.recs[id].value, Some(id))],
                      recs := Ticketed(s, Some(id), Pending), sends := s.sends + [id], recheck := Some(id),
                      failures := s'.failures)
    ensures Core(s')
  {
    var sub := Submission(s.recs[id].value, Some(id));
    assert id !in s.sends;
    assert Places(s') && CalledOnce(s') by {
      QueuedPlaces(s, s', id);
    }
    assert Conserved(s') by {
      ItemsFrame(s.recs, s'.recs, s.sends);
      ItemsConcat(s'.recs, s.sends, [id]);
      assert Line(s') == Line(s) + [Item(|s.submitted|, sub.value)];
      JoinLine(Line(s), s.submitted, s.refused, s.discarded, sub);
    }
    assert Outcomes(s') by {
      TakenGrows(s, s');
      OutcomesFrame(s, s', {id});
    }
  }

  lemma QueueRecv(s: State, id: nat, s': State)
    requires Core(s) && id in s.recs && s.recs[id].Recv? && s.recs[id].place.Ready? && !s.recs[id].cb.Fired?
    requires s' == s.(recs := s.recs[id := Moved(s.recs[id], Pending)], recvs := s.recvs + [id],
                      recheck := Some(id))
    ensures Core(s')
  {
    assert Places(s') && CalledOnce(s') by {
      QueuedPlaces(s, s', id);
    }
    assert Conserved(s') by {
      ItemsFrame(s.recs, s'.recs, s.sends);
    }
    assert Outcomes(s') by {
      TakenGrows(s, s');
      OutcomesFrame(s, s', {id});
    }
  }

  /** A ready record queues itself. */
  lemma QueuedPlaces(s: State, s': State, id: nat)
    requires Places(s) && CalledOnce(s) && id in s.recs && s.recs[id].place.Ready?
    requires s'.recs.Keys == s.recs.Keys && s'.tasks == s.tasks && s'.calls == s.calls && s'.recheck == Some(id)
    requires s'.recs[id].place.Pending? && s'.recs[id].Send? == s.recs[id].Send?
    requires forall k | k in s.recs && k != id :: s'.recs[k] == s.recs[k]
    requires s'.sends == (if s.recs[id].Send? then s.sends + [id] else s.sends)
    requires s'.recvs == (if s.recs[id].Send? then s.recvs else s.recvs + [id])
    ensures Places(s') && CalledOnce(s')
  {
    assert id !in s.sends && id !in s.recvs;
    forall t | t in s'.tasks ensures TaskOk(s', t) {
      assert TaskOk(s, t);
    }
    forall k | k in s'.recs ensures Placed(s', k) {
      assert Placed(s, k);
    }
  }

  /** The head of the buffer goes to the receive record `to`, or to the caller of try_recv. */
  ghost predicate TakesHead(s: State, to: Option<nat>, n: nat, s': State) {
    && s.buffer != [] && s.recheck.None?
    && (to.Some? ==> to.value in s.recs && s.recs[to.value].Recv?
                     && (s.recs[to.value].place.Ready? || s.recs[to.value].place.Pending?))
    && Gains(s, s', n, Ids(to))
    && s' == s.(buffer := s.buffer[1..], recvs := s'.recvs, tasks := s'.tasks,
                recs := Prepared(s, to, n), received := s.received + [Delivery(s.buffer[0], to)])
    && Distinct(s'.recvs) && forall id :: id in s'.recvs <==> id in s.recvs && id !in Ids(to)
  }

  function Prepared(s: State, to: Option<nat>, n: nat): map<nat, Rec>
    requires to.Some? ==> to.value in s.recs && s.recs[to.value].Recv?
    requires s.buffer != []
  {
    if to.None? then s.recs
    else s.recs[to.value := Recv(Some(s.buffer[0]), s.recs[to.value].cb, Claimed(n, AsValue))]
  }

  lemma TakeHead(s: State, to: Option<nat>, n: nat, s': State)
    requires Core(s) && TakesHead(s, to, n, s')
    ensures Core(s')
  {
    hide Places, CalledOnce, Conserved, Outcomes;
    TakeHeadPlaces(s, to, n, s');
    TakeHeadLine(s, to, n, s');
    TakeHeadOutcomes(s, to, n, s');
  }

  lemma TakeHeadPlaces(s: State, to: Option<nat>, n: nat, s': State)
    requires Places(s) && CalledOnce(s) && TakesHead(s, to, n, s')
    ensures Places(s') && CalledOnce(s')
  {
    ClaimPlaces(s, s', n, Ids(to));
  }

  lemma TakeHeadLine(s: State, to: Option<nat>, n: nat, s': State)
    requires Conserved(s) && TakesHead(s, to, n, s')
    ensures Conserved(s') && Taken(s') == Taken(s)
  {
    hide InOrder, Account;
    assert Taken(s') == Taken(s) by {
      assert s.buffer == [s.buffer[0]] + s.buffer[1..];
      assert Items(s'.received) == Items(s.received) + [s.buffer[0]];
    }
    ItemsFrame(s.recs, s'.recs, s.sends);
  }

  lemma TakeHeadOutcomes(s: State, to: Option<nat>, n: nat, s': State)
    requires Outcomes(s) && TakesHead(s, to, n, s') && Taken(s') == Taken(s)
    ensures Outcomes(s')
  {
    TakenGrows(s, s');
    assert s'.received[|s.received|] == Delivery(s.buffer[0], to);
    if to.Some? { assert Outcome(s, to.value); }
    OutcomesFrame(s, s', IdSet(to));
  }

  /** The first queued send moves its value into the buffer. */
  ghost predicate MovesIn(s: State, n: nat, s': State) {
    && s.sends != [] && s.sends[0] in s.recs && s.recheck.None?
    && Gains(s, s', n, [s.sends[0]])
    && s' == s.(buffer := s.buffer + [ItemOf(s.recs, s.sends[0])], sends := s.sends[1..], tasks := s'.tasks,
                recs := s.recs[s.sends[0] := Moved(s.recs[s.sends[0]], Claimed(n, AsValue))])
  }

  lemma MoveIn(s: State, n: nat, s': State)
    requires Core(s) && MovesIn(s, n, s')
    ensures Core(s')
  {
    assert s.recs[s.sends[0]].Send? && s.recs[s.sends[0]].place.Pending?;
    hide Places, CalledOnce, Conserved, Outcomes;
    MoveInPlaces(s, n, s');
    MoveInLine(s, n, s');
    MoveInOutcomes(s, n, s');
  }

  lemma MoveInPlaces(s: State, n: nat, s': State)
    requires Places(s) && CalledOnce(s) && MovesIn(s, n, s')
    ensures Places(s') && CalledOnce(s')
  {
    TailIs(s.sends);
    ClaimPlaces(s, s', n, [s.sends[0]]);
  }

  lemma MoveInLine(s: State, n: nat, s': State)
    requires Conserved(s) && MovesIn(s, n, s')
    ensures Conserved(s') && Taken(s') == Taken(s) + [ItemOf(s.recs, s.sends[0])]
  {
    hide InOrder, Account;
    var id := s.sends[0];
    assert Taken(s') == Taken(s) + [ItemOf(s.recs, id)];
    ItemsFrame(s.recs, s'.recs, s.sends[1..]);
    assert s.sends == [id] + s.sends[1..];
    ItemsConcat(s.recs, [id], s.sends[1..]);
    assert Line(s') == Line(s);
  }

  lemma MoveInOutcomes(s: State, n: nat, s': State)
    requires Outcomes(s) && MovesIn(s, n, s') && Taken(s') == Taken(s) + [ItemOf(s.recs, s.sends[0])]
    requires s.recs[s.sends[0]].Send? && s.recs[s.sends[0]].place.Pending?
    ensures Outcomes(s')
  {
    var id := s.sends[0];
    TakenGrows(s, s');
    assert Taken(s')[|Taken(s)|].ticket == ItemOf(s.recs, id).ticket;
    assert Outcome(s, id);
    OutcomesFrame(s, s', {id});
  }

  /** A record that is not yet claimed is given up: a queued send loses its value. */
  ghost predicate GivesUp(s: State, id: nat, n: nat, how: How, s': State) {
    && id in s.recs && (how == AsStopped || (how == AsError && s.recs[id].Send? && s.recs[id].place.Pending?))
    && (s.recs[id].place.Pending? || s.recs[id].place.Created? || (s.recs[id].place.Ready? && s.recs[id].Recv?))
    && Gains(s, s', n, [id]) && (s.recheck.Some? ==> s.recheck.value != id)
    && s' == s.(tasks := s'.tasks, failures := s'.failures,
                sends := Without(s.sends, id), recvs := Without(s.recvs, id),
                recs := s.recs[id := Moved(s.recs[id], Claimed(n, how))],
                refused := if id in s.sends then s.refused + {ItemOf(s.recs, id).ticket} else s.refused)
  }

  lemma GiveUp(s: State, id: nat, n: nat, how: How, s': State)
    requires Core(s) && GivesUp(s, id, n, how, s')
    ensures Core(s')
  {
    assert id in s.sends <==> s.recs[id].Send? && s.recs[id].place.Pending? by {
      assert Placed(s, id);
    }
    hide Places, CalledOnce, Conserved, Outcomes;
    GiveUpPlaces(s, id, n, how, s');
    GiveUpLine(s, id, n, how, s');
    GiveUpOutcomes(s, id, n, how, s');
  }

  lemma GiveUpPlaces(s: State, id: nat, n: nat, how: How, s': State)
    requires Places(s) && CalledOnce(s) && GivesUp(s, id, n, how, s')
    ensures Places(s') && CalledOnce(s')
  {
    WithoutIs(s.sends, id);
    WithoutIs(s.recvs, id);
    hide Without, Distinct, ItemOf;
    ClaimPlaces(s, s', n, [id]);
  }

  lemma GiveUpLine(s: State, id: nat, n: nat, how: How, s': State)
    requires Conserved(s) && GivesUp(s, id, n, how, s')
    ensures Conserved(s')
  {
    hide InOrder, Account;
    ItemsFrame(s.recs, s'.recs, s'.sends);
    if id in s.sends {
      var k := WithoutSplits(s.sends, id);
      DropOneLine(s, id, k);
      assert Line(s') == Taken(s) + ItemsOf(s.recs, s.sends[..k] + s.sends[k + 1..]);
    } else {
      WithoutAbsent(s.sends, id);
    }
  }

  lemma DropOneLine(s: State, id: nat, k: nat)
    requires Conserved(s) && k < |s.sends| && s.sends[k] == id
    ensures var line := Taken(s) + ItemsOf(s.recs, s.sends[..k] + s.sends[k + 1..]);
      && InOrder(line, s.submitted)
      && Account(line, |s.submitted|, s.refused + {ItemOf(s.recs, id).ticket}, s.discarded)
  {
    hide InOrder, Account;
    var pend := ItemsOf(s.recs, s.sends);
    var a, b, c := Taken(s) + pend[..k], [pend[k]], pend[k + 1..];
    assert Line(s) == a + b + c;
    assert Taken(s) + ItemsOf(s.recs, s.sends[..k] + s.sends[k + 1..]) == a + c;
    assert Tickets(b) == {ItemOf(s.recs, id).ticket} by { assert b[0] == ItemOf(s.recs, id); }
    DropFromLine(a, b, c, s.submitted, s.refused, s.discarded, Tickets(b), {});
    assert s.discarded + {} == s.discarded;
  }

  lemma GiveUpOutcomes(s: State, id: nat, n: nat, how: How, s': State)
    requires Outcomes(s) && GivesUp(s, id, n, how, s')
    requires id in s.sends <==> s.recs[id].Send? && s.recs[id].place.Pending?
    ensures Outcomes(s')
  {
    hide Without;
    TakenGrows(s, s');
    assert Outcome(s, id);
    OutcomesFrame(s, s', {id});
  }

  // ----- close and request_stop

  /** Both queues are detached; receivers will be completed as `how`, senders with stopped. */
  ghost predicate Detaches(s: State, n: nat, how: How, s': State) {
    && n !in s.tasks && s.recheck.None? && (how.AsPrepared? || how.AsStopped?)
    && s' == s.(closed := s'.closed, stopped := s'.stopped, sends := [], recvs := [],
                buffer := s'.buffer, discarded := s'.discarded,
                recs := ClaimAll(ClaimAll(s.recs, s.recvs, n, how), s.sends, n, AsStopped),
                refused := s.refused + Tickets(ItemsOf(s.recs, s.sends)),
                tasks := s.tasks[n := s.recvs + s.sends])
    && (|| (s'.buffer == s.buffer && s'.discarded == s.discarded)
        || (s'.buffer == [] && s'.discarded == s.discarded + Tickets(s.buffer)))
  }

  lemma Detach(s: State, n: nat, how: How, s': State)
    requires Core(s) && Detaches(s, n, how, s')
    ensures Core(s')
  {
    hide CalledOnce, Conserved, Outcomes;
    DetachPlaces(s, n, how, s');
    DetachLine(s, n, how, s');
    DetachOutcomes(s, n, how, s');
  }

  lemma DetachPlaces(s: State, n: nat, how: How, s': State)
    requires Places(s) && CalledOnce(s) && Detaches(s, n, how, s')
    ensures Places(s') && CalledOnce(s')
  {
    var ids := s.recvs + s.sends;
    forall i, j | 0 <= i < j < |ids| ensures ids[i] != ids[j] {
      if i < |s.recvs| <= j {
        assert s.recvs[i] in s.recvs && s.sends[j - |s.recvs|] in s.sends;
      }
    }
    ClaimPlaces(s, s', n, ids);
  }

  lemma DetachLine(s: State, n: nat, how: How, s': State)
    requires Conserved(s) && Detaches(s, n, how, s')
    ensures Conserved(s')
  {
    hide InOrder, Account, ClaimAll;
    var pend := ItemsOf(s.recs, s.sends);
    assert Line(s') == Taken(s');
    if s'.buffer == s.buffer && s'.discarded == s.discarded {
      assert Line(s) == Taken(s) + pend + [] && Line(s') == Taken(s) + [];
      DropFromLine(Taken(s), pend, [], s.submitted, s.refused, s.discarded, Tickets(pend), {});
      assert s.discarded + {} == s.discarded;
    } else {
      var a := Items(s.received);
      assert Line(s) == a + (s.buffer + pend) + [] && Line(s') == a + [];
      TicketsApart(a, s.buffer, pend, s.submitted);
      DropFromLine(a, s.buffer + pend, [], s.submitted, s.refused, s.discarded, Tickets(pend), Tickets(s.buffer));
    }
  }

  lemma TicketsApart(a: seq<Item>, b: seq<Item>, c: seq<Item>, subs: seq<Submission>)
    requires InOrder(a + (b + c) + [], subs)
    ensures Tickets(c) + Tickets(b) == Tickets(b + c) && Tickets(c) !! Tickets(b)
  {
    var line := a + (b + c) + [];
    assert forall k | 0 <= k < |b + c| :: line[|a| + k] == (b + c)[k];
    forall t | t in Tickets(b) ensures t in Tickets(b + c) && t !in Tickets(c) {
      var k :| 0 <= k < |b| && b[k].ticket == t;
      assert (b + c)[k] == b[k];
      assert forall j | 0 <= j < |c| :: (b + c)[|b| + j] == c[j];
    }
    forall t | t in Tickets(c) ensures t in Tickets(b + c) {
      var k :| 0 <= k < |c| && c[k].ticket == t;
      assert (b + c)[|b| + k] == c[k];
    }
  }

  lemma DetachOutcomes(s: State, n: nat, how: How, s': State)
    requires Outcomes(s) && Places(s) && Detaches(s, n, how, s')
    ensures Outcomes(s')
  {
    hide CalledOnce, Distinct;
    DetachGrows(s, n, how, s');
    var touched := set id | id in s.recvs + s.sends;
    forall id | id in touched ensures Outcome(s', id) {
      DetachOutcome(s, n, how, s', id);
    }
    OutcomesFrame(s, s', touched);
  }

  lemma DetachOutcome(s: State, n: nat, how: How, s': State, id: nat)
    requires Outcomes(s) && Places(s) && Detaches(s, n, how, s') && id in s.recvs + s.sends
    ensures Outcome(s', id)
  {
    hide CalledOnce, Distinct;
    assert Outcome(s, id);
    if id in s.sends {
      var k :| 0 <= k < |s.sends| && s.sends[k] == id;
      assert ItemsOf(s.recs, s.sends)[k] == ItemOf(s.recs, id);
    }
  }

  lemma DetachGrows(s: State, n: nat, how: How, s': State)
    requires Detaches(s, n, how, s')
    ensures Grows(s, s')
  {
    if s'.buffer == s.buffer && s'.discarded == s.discarded {
      TakenGrows(s, s');
    } else {
      forall t: nat | Accepted(s, t) ensures Accepted(s', t) {
        if InItems(Taken(s), t) {
          var k :| 0 <= k < |Taken(s)| && Taken(s)[k].ticket == t;
          if k < |s.received| { assert Taken(s')[k].ticket == t; }
          else { assert s.buffer[k - |s.received|].ticket == t; }
        }
      }
    }
  }

  // ----- Outside the lock

  lemma RunNextCore(s: State, t: nat)
    requires Core(s) && Known(s) && Enabled(s, DoRunNext(t))
    ensures Core(RunNext(s, t))
  {
    var s' := RunNext(s, t);
    assert TaskOk(s, t);
    var id := s.tasks[t][0];
    assert id in s.tasks[t];
    assert s.recs[id].place.Claimed?;
    hide CalledOnce, Conserved, Outcomes, Places;
    RunNextPlaces(s, t);
    RunNextCalls(s, t);
    ItemsFrame(s.recs, s'.recs, s.sends);
    assert Line(s') == Line(s);
    assert Conserved(s') by { ConservedFrame(s, s'); }
    RunNextOutcomes(s, t);
  }

  lemma ConservedFrame(s: State, s': State)
    requires Conserved(s) && Line(s') == Line(s) && s'.submitted == s.submitted
    requires s'.refused == s.refused && s'.discarded == s.discarded
    ensures Conserved(s')
  {
  }

  lemma RunNextPlaces(s: State, t: nat)
    requires Places(s) && Known(s) && Enabled(s, DoRunNext(t))
    ensures Places(RunNext(s, t))
  {
    hide KindOf;
    var s' := RunNext(s, t);
    var id := s.tasks[t][0];
    assert TaskOk(s, t) && id in s.tasks[t];
    TailIs(s.tasks[t]);
    forall u | u in s'.tasks ensures TaskOk(s', u) {
      assert TaskOk(s, u);
    }
    forall k | k in s'.recs ensures Placed(s', k) {
      assert Placed(s, k);
      if k == id { assert s'.calls[|s.calls|] == Call(id, KindOf(s.recs[id])); }
    }
  }

  lemma RunNextCalls(s: State, t: nat)
    requires CalledOnce(s) && Known(s) && Enabled(s, DoRunNext(t)) && s.recs[s.tasks[t][0]].place.Claimed?
    ensures CalledOnce(RunNext(s, t))
  {
    hide KindOf;
    var s' := RunNext(s, t);
    var id := s.tasks[t][0];
    assert forall k | 0 <= k < |s.calls| :: s.calls[k].id != id;
    assert forall k | 0 <= k < |s.calls| :: s'.calls[k] == s.calls[k];
  }

  lemma RunNextOutcomes(s: State, t: nat)
    requires Outcomes(s) && Known(s) && Enabled(s, DoRunNext(t)) && s.recs[s.tasks[t][0]].place.Claimed?
    ensures Outcomes(RunNext(s, t))
  {
    var s' := RunNext(s, t);
    var id := s.tasks[t][0];
    assert Outcome(s, id);
    TakenGrows(s, s');
    OutcomesFrame(s, s', {id});
  }

  /** Callback moves and creations disturb nothing else. */
  lemma Background(s: State, s': State, touched: set<nat>)
    requires Places(s) && CalledOnce(s) && Conserved(s) && Outcomes(s) && SameRecords(s, s', touched)
    requires s' == s.(recs := s'.recs)
    requires forall id | id in touched && id in s.recs ::
               && s.recs[id].place.Created? && s'.recs[id].place.Ready?
               && s'.recs[id] == WithCallback(Moved(s.recs[id], Ready), s'.recs[id].cb)
    requires forall id | id in s'.recs && id !in s.recs :: Fresh(s'.recs[id])
    ensures Places(s') && CalledOnce(s') && Conserved(s') && Outcomes(s')
  {
    assert Places(s') && CalledOnce(s') by {
      BackgroundPlaces(s, s', touched);
    }
    assert Conserved(s') by {
      ItemsFrame(s.recs, s'.recs, s.sends);
      ConservedFrame(s, s');
    }
    assert Outcomes(s') by {
      forall id | id in touched && id in s.recs ensures Outcome(s', id) {
        assert Outcome(s, id);
      }
      TakenGrows(s, s');
      OutcomesFrame(s, s', touched);
    }
  }

  lemma BackgroundPlaces(s: State, s': State, touched: set<nat>)
    requires Places(s) && CalledOnce(s) && SameRecords(s, s', touched) && s' == s.(recs := s'.recs)
    requires forall id | id in touched && id in s.recs ::
               && s.recs[id].place.Created? && s'.recs[id].place.Ready? && s'.recs[id].Send? == s.recs[id].Send?
    requires forall id | id in s'.recs && id !in s.recs :: Fresh(s'.recs[id])
    ensures Places(s') && CalledOnce(s')
  {
    forall t | t in s'.tasks ensures TaskOk(s', t) {
      assert TaskOk(s, t);
    }
    forall id | id in s'.recs ensures Placed(s', id) {
      if id in s.recs { assert Placed(s, id); }
    }
  }
}
