/**
  What every step of the bounded channel keeps.
 */
module ChannelProofs {
  import opened Channel

  // ----- Queues

  lemma {:induction false} WithoutIs(ids: seq<nat>, id: nat)
    requires Distinct(ids)
    ensures Distinct(Without(ids, id))
    ensures forall x :: x in Without(ids, id) <==> x in ids && x != id
  {
    if ids != [] && ids[0] != id {
      var w := Without(ids[1..], id);
      WithoutIs(ids[1..], id);
      assert ids == [ids[0]] + ids[1..];
      forall i, j | 0 <= i < j < |w| + 1 ensures ([ids[0]] + w)[i] != ([ids[0]] + w)[j] {
        if i == 0 { assert w[j - 1] in w; }
      }
    } else if ids != [] {
      assert forall x | x in ids[1..] :: x != id;
      assert ids == [ids[0]] + ids[1..];
    }
  }

  /** The place of `id` in its queue, and the queue around it. */
  lemma {:induction false} WithoutSplits(ids: seq<nat>, id: nat) returns (k: nat)
    requires id in ids
    ensures k < |ids| && ids[k] == id
    ensures ids == ids[..k] + [id] + ids[k + 1..] && Without(ids, id) == ids[..k] + ids[k + 1..]
  {
    if ids[0] == id {
      k := 0;
    } else {
      assert ids == [ids[0]] + ids[1..];
      var j := WithoutSplits(ids[1..], id);
      k := j + 1;
      assert ids[..k] == [ids[0]] + ids[1..][..j] && ids[k + 1..] == ids[1..][j + 1..];
      assert ids == ids[..k] + [ids[k]] + ids[k + 1..];
    }
  }

  lemma {:induction false} WithoutAbsent(ids: seq<nat>, id: nat)
    requires id !in ids
    ensures Without(ids, id) == ids
  {
    if ids != [] {
      assert ids == [ids[0]] + ids[1..];
      WithoutAbsent(ids[1..], id);
    }
  }

  lemma TailIs(ids: seq<nat>)
    requires ids != [] && Distinct(ids)
    ensures Distinct(ids[1..])
    ensures forall x :: x in ids[1..] <==> x in ids && x != ids[0]
  {
    assert ids == [ids[0]] + ids[1..];
  }

  lemma ItemsFrame(recs: map<nat, Rec>, recs': map<nat, Rec>, ids: seq<nat>)
    requires forall id | id in ids :: ItemOf(recs', id) == ItemOf(recs, id)
    ensures ItemsOf(recs', ids) == ItemsOf(recs, ids)
  {
    forall k | 0 <= k < |ids| ensures ItemsOf(recs', ids)[k] == ItemsOf(recs, ids)[k] {
      assert ids[k] in ids;
    }
  }

  lemma ItemsConcat(recs: map<nat, Rec>, a: seq<nat>, b: seq<nat>)
    ensures ItemsOf(recs, a + b) == ItemsOf(recs, a) + ItemsOf(recs, b)
  {
  }

  // ----- Places

  /** Task `n`, new or not, gains exactly the calls on `ids`, in some order. */
  ghost predicate Gains(s: State, s': State, n: nat, ids: seq<nat>) {
    || (ids == [] && s'.tasks == s.tasks)
    || (&& n in s'.tasks
        && (forall t | t in s'.tasks && t != n :: t in s.tasks && s'.tasks[t] == s.tasks[t])
        && (forall t | t in s.tasks :: t in s'.tasks)
        && Distinct(s'.tasks[n])
        && forall id :: id in s'.tasks[n] <==> id in ids || (n in s.tasks && id in s.tasks[n]))
  }

  /** Records `ids`, not claimed so far, are claimed for task `n`; no other record moves. */
  ghost predicate Claims(s: State, s': State, n: nat, ids: seq<nat>) {
    && s'.recs.Keys == s.recs.Keys
    && (forall id | id in s.recs :: s'.recs[id].Send? == s.recs[id].Send?)
    && (forall id | id in s.recs && id !in ids :: s'.recs[id].place == s.recs[id].place)
    && (forall id | id in ids ::
          && id in s.recs && !s.recs[id].place.Claimed? && !s.recs[id].place.Done?
          && id in s'.recs && s'.recs[id].place.Claimed? && s'.recs[id].place.task == n)
    && s'.calls == s.calls
  }

  /** The claimed records leave the queues they were in. */
  ghost predicate Leave(s: State, s': State, ids: seq<nat>) {
    && Distinct(s'.sends) && Distinct(s'.recvs)
    && (forall id :: id in s'.sends <==> id in s.sends && id !in ids)
    && (forall id :: id in s'.recvs <==> id in s.recvs && id !in ids)
    && (s'.recheck.Some? ==> s'.recheck == s.recheck && s.recheck.value !in ids)
  }

  lemma ClaimPlaces(s: State, s': State, n: nat, ids: seq<nat>)
    requires Places(s) && CalledOnce(s)
    requires Gains(s, s', n, ids) && Claims(s, s', n, ids) && Leave(s, s', ids)
    ensures Places(s') && CalledOnce(s')
  {
    forall t | t in s'.tasks ensures TaskOk(s', t) {
      if t in s.tasks {
        assert TaskOk(s, t);
      }
    }
    forall id | id in s'.recs ensures Placed(s', id) {
      assert Placed(s, id);
    }
  }

  // ----- The line of values

  /** The next value joins the end of the line. */
  lemma JoinLine(line: seq<Item>, subs: seq<Submission>, refused: set<nat>, discarded: set<nat>, sub: Submission)
    requires InOrder(line, subs) && Account(line, |subs|, refused, discarded)
    ensures InOrder(line + [Item(|subs|, sub.value)], subs + [sub])
    ensures Account(line + [Item(|subs|, sub.value)], |subs| + 1, refused, discarded)
  {
    var line' := line + [Item(|subs|, sub.value)];
    forall t: nat | t < |subs| + 1 ensures OneFate(line', refused, discarded, t) {
      if t < |subs| {
        assert OneFate(line, refused, discarded, t);
        if InItems(line, t) {
          var k :| 0 <= k < |line| && line[k].ticket == t;
          assert line'[k].ticket == t;
        }
      } else {
        assert line'[|line|].ticket == t;
      }
    }
  }

  /** The next value is turned away. */
  lemma TurnAway(line: seq<Item>, subs: seq<Submission>, refused: set<nat>, discarded: set<nat>, sub: Submission)
    requires InOrder(line, subs) && Account(line, |subs|, refused, discarded)
    ensures InOrder(line, subs + [sub])
    ensures Account(line, |subs| + 1, refused + {|subs|}, discarded)
  {
    forall t: nat | t < |subs| + 1 ensures OneFate(line, refused + {|subs|}, discarded, t) {
      if t < |subs| {
        assert OneFate(line, refused, discarded, t);
      }
    }
  }

  /** The stretch `b` of the line is dropped; its tickets are split between the two sets. */
  lemma DropFromLine(a: seq<Item>, b: seq<Item>, c: seq<Item>, subs: seq<Submission>,
                     refused: set<nat>, discarded: set<nat>, r: set<nat>, d: set<nat>)
    requires InOrder(a + b + c, subs) && Account(a + b + c, |subs|, refused, discarded)
    requires r + d == Tickets(b) && r !! d
    ensures InOrder(a + c, subs)
    ensures Account(a + c, |subs|, refused + r, discarded + d)
  {
    var line := a + b + c;
    forall k | 0 <= k < |a + c| ensures (a + c)[k] == line[if k < |a| then k else k + |b|] {
    }
    forall t: nat | t < |subs| ensures OneFate(a + c, refused + r, discarded + d, t) {
      assert OneFate(line, refused, discarded, t);
      DroppedFate(a, b, c, subs, t);
    }
    forall t | t in r + d ensures t < |subs| {
      var k :| 0 <= k < |b| && b[k].ticket == t;
      assert line[|a| + k] == b[k];
    }
  }

  lemma DroppedFate(a: seq<Item>, b: seq<Item>, c: seq<Item>, subs: seq<Submission>, t: nat)
    requires InOrder(a + b + c, subs)
    ensures InItems(a + b + c, t) <==> InItems(a + c, t) || t in Tickets(b)
    ensures !(InItems(a + c, t) && t in Tickets(b))
  {
    OrderedPrefix(a + b, c, subs);
    hide InOrder, InItems;
    InConcat(a, c, t);
    PartsApart(a + b, c, subs, t);
    PartsApart(a, b, subs, t);
    InTickets(b, t);
  }

  lemma InTickets(b: seq<Item>, t: nat)
    ensures t in Tickets(b) <==> InItems(b, t)
  {
  }

  lemma OrderedPrefix(a: seq<Item>, b: seq<Item>, subs: seq<Submission>)
    requires InOrder(a + b, subs)
    ensures InOrder(a, subs)
  {
    assert forall k | 0 <= k < |a| :: (a + b)[k] == a[k];
  }

  lemma InConcat(a: seq<Item>, b: seq<Item>, t: nat)
    ensures InItems(a + b, t) <==> InItems(a, t) || InItems(b, t)
  {
    assert forall k | 0 <= k < |a| :: (a + b)[k] == a[k];
    assert forall k | 0 <= k < |b| :: (a + b)[|a| + k] == b[k];
    if InItems(a + b, t) {
      var k :| 0 <= k < |a + b| && (a + b)[k].ticket == t;
      if k < |a| { assert a[k].ticket == t; } else { assert b[k - |a|].ticket == t; }
    }
  }

  /** A ticket is in one part of the line only. */
  lemma PartsApart(a: seq<Item>, b: seq<Item>, subs: seq<Submission>, t: nat)
    requires InOrder(a + b, subs)
    ensures InItems(a + b, t) <==> InItems(a, t) || InItems(b, t)
    ensures !(InItems(a, t) && InItems(b, t))
  {
    InConcat(a, b, t);
    var line := a + b;
    assert forall k | 0 <= k < |a| :: line[k] == a[k];
    assert forall k | 0 <= k < |b| :: line[|a| + k] == b[k];
  }

  // ----- Outcomes

  /** History only grows, and accepted values stay accepted. */
  ghost predicate Grows(s: State, s': State) {
    && s.submitted <= s'.submitted
    && s.received <= s'.received
    && s.refused <= s'.refused
    && forall t: nat | Accepted(s, t) :: Accepted(s', t)
  }

  /** Records outside `touched` are as before, but for their callback. */
  ghost predicate SameRecords(s: State, s': State, touched: set<nat>) {
    && s.recs.Keys <= s'.recs.Keys
    && forall id | id in s.recs && id !in touched ::
         s'.recs[id] == WithCallback(s.recs[id], s'.recs[id].cb)
  }

  lemma OutcomesFrame(s: State, s': State, touched: set<nat>)
    requires Outcomes(s) && Grows(s, s') && SameRecords(s, s', touched)
    requires forall id | id in s'.recs && (id in touched || id !in s.recs) :: Outcome(s', id)
    requires forall id | id in touched && id in s.recs && s.recs[id].Recv? && s.recs[id].got.Some? ::
               s'.recs[id].Recv? && s'.recs[id].got == s.recs[id].got
    requires forall id | id in touched && id in s.recs && s.recs[id].Send? && s.recs[id].ticket.Some? ::
               s'.recs[id].Send? && s'.recs[id].ticket == s.recs[id].ticket
    requires forall k | |s.received| <= k < |s'.received| :: DeliveryOk(s', s'.received[k])
    requires forall t: nat | |s.submitted| <= t < |s'.submitted| :: SubmissionOk(s', t)
    ensures Outcomes(s')
  {
    forall t: nat | t < |s'.submitted| ensures SubmissionOk(s', t) {
      if t < |s.submitted| { assert SubmissionOk(s, t); }
    }
    forall id | id in s'.recs ensures Outcome(s', id) {
      if id in s.recs && id !in touched {
        assert Outcome(s, id);
      }
    }
    forall d | d in s'.received ensures DeliveryOk(s', d) {
      var k :| 0 <= k < |s'.received| && s'.received[k] == d;
      if k < |s.received| {
        assert s.received[k] == d && d in s.received;
        assert DeliveryOk(s, d);
      }
    }
  }

  /** Accepted values stay accepted when the taken ones are only extended. */
  lemma TakenGrows(s: State, s': State)
    requires Taken(s) <= Taken(s') && s.discarded <= s'.discarded
    ensures forall t: nat | Accepted(s, t) :: Accepted(s', t)
  {
    forall t: nat | Accepted(s, t) ensures Accepted(s', t) {
      if InItems(Taken(s), t) {
        var k :| 0 <= k < |Taken(s)| && Taken(s)[k].ticket == t;
        assert Taken(s')[k].ticket == t;
      }
    }
  }
}
