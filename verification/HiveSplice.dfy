/**
  splice: all active blocks of the source move behind the destination's, without
  touching an element.  A block outside the destination's limits refuses the whole
  operation before anything changes.
 */
module HiveSplice {
  import opened HiveBlock
  import opened HiveModel
  import opened HiveModelProofs
  import opened HiveTraversal
  import opened HiveElements
  import opened HiveLists
  import opened HiveContainer
  import opened HiveRebuild

  // ----- The operation on values

  /** Order numbers `n`, `n + 1`, ... for the blocks `ids`. */
  function Renumbered(order: map<nat, nat>, ids: seq<nat>, n: nat): map<nat, nat> {
    if ids == [] then order
    else Renumbered(order, ids[..|ids| - 1], n)[ids[|ids| - 1] := n + |ids| - 1]
  }

  /** Each block of `ids` that is flagged goes to the front of the available list in turn. */
  function Requeued(available: seq<nat>, ids: seq<nat>, flags: seq<nat>): seq<nat> {
    if ids == [] then available
    else
      var x := ids[|ids| - 1];
      var r := Requeued(available, ids[..|ids| - 1], flags);
      if x in flags then [x] + r else r
  }

  function Destination<T>(h: Hive<T>, g: Hive<T>): Hive<T>
    requires forall id | id in g.active :: id in g.store
  {
    h.(store := h.store + map id | id in g.active :: g.store[id],
       order := Renumbered(h.order, g.active, h.nextOrder),
       nextOrder := h.nextOrder + |g.active|,
       active := h.active + g.active,
       available := Requeued(h.available, g.active, g.available),
       size := h.size + g.size,
       capacity := h.capacity + Total(g.store, g.active, false))
  }

  function Source<T>(g: Hive<T>): Hive<T>
    requires forall id | id in g.active :: id in g.store
    requires Total(g.store, g.active, false) <= g.capacity
  {
    g.(store := map id | id in g.store && id !in g.active :: g.store[id],
       active := [], available := [], size := 0,
       capacity := g.capacity - Total(g.store, g.active, false))
  }

  lemma {:induction false} RenumberedAt(order: map<nat, nat>, ids: seq<nat>, n: nat, i: nat)
    requires Distinct(ids) && i < |ids|
    ensures ids[i] in Renumbered(order, ids, n) && Renumbered(order, ids, n)[ids[i]] == n + i
  {
    if i < |ids| - 1 { RenumberedAt(order, ids[..|ids| - 1], n, i); }
  }

  lemma {:induction false} RenumberedElsewhere(order: map<nat, nat>, ids: seq<nat>, n: nat, x: nat)
    requires x !in ids
    ensures x in Renumbered(order, ids, n) <==> x in order
    ensures x in order ==> Renumbered(order, ids, n)[x] == order[x]
  {
    if ids != [] {
      assert ids[|ids| - 1] in ids && forall y | y in ids[..|ids| - 1] :: y in ids;
      RenumberedElsewhere(order, ids[..|ids| - 1], n, x);
    }
  }

  lemma {:induction false} RequeuedMembers(available: seq<nat>, ids: seq<nat>, flags: seq<nat>)
    requires Distinct(available) && Distinct(ids) && forall x | x in ids :: x !in available
    ensures Distinct(Requeued(available, ids, flags))
    ensures forall x :: x in Requeued(available, ids, flags) <==> x in available || (x in ids && x in flags)
  {
    if ids != [] {
      var n := |ids| - 1;
      assert ids == ids[..n] + [ids[n]];
      assert ids[n] in ids && forall y | y in ids[..n] :: y in ids;
      RequeuedMembers(available, ids[..n], flags);
    }
  }

  // ----- Both containers stay well formed

  /** What splice relies on: disjoint storage, and source blocks that fit. */
  ghost predicate CanSplice<T>(h: Hive<T>, g: Hive<T>) {
    && Inv(h) && Inv(g)
    && (forall id | id in g.store :: id !in h.store)
    && (forall id | id in g.active && id in g.store :: h.min <= g.store[id].capacity <= h.max)
  }

  lemma DestinationOrders<T>(h: Hive<T>, g: Hive<T>, x: nat)
    requires ListsOk(h) && ListsOk(g) && (x in h.active || x in g.active)
    ensures x in Renumbered(h.order, g.active, h.nextOrder)
  {
    hide HasSpace, Renumbered;
    if x in g.active {
      RenumberedAt(h.order, g.active, h.nextOrder, Position(g.active, x));
    } else {
      RenumberedElsewhere(h.order, g.active, h.nextOrder, x);
    }
  }

  lemma DestinationLists<T>(h: Hive<T>, g: Hive<T>)
    requires ListsOk(h) && AvailableOk(h) && ListsOk(g) && AvailableOk(g)
    requires forall id | id in g.store :: id !in h.store
    ensures ListsOk(Destination(h, g))
  {
    hide HasSpace, Renumbered, Requeued, Total;
    var d := Destination(h, g);
    DistinctConcat(h.active, g.active);
    RequeuedMembers(h.available, g.active, g.available);
    forall x | x in d.active ensures x in d.store && x in d.order && x !in d.reserved {
      DestinationOrders(h, g, x);
    }
    forall x | x in d.store ensures x != NULL && (x in d.active || x in d.reserved) {
      assert x in h.store || x in g.active;
    }
  }

  lemma DestinationAvailable<T>(h: Hive<T>, g: Hive<T>)
    requires ListsOk(h) && AvailableOk(h) && ListsOk(g) && AvailableOk(g) && ListsOk(Destination(h, g))
    requires forall id | id in g.store :: id !in h.store
    ensures AvailableOk(Destination(h, g))
  {
    hide HasSpace, Renumbered, Requeued, Total;
    var d := Destination(h, g);
    RequeuedMembers(h.available, g.active, g.available);
    forall x | x in d.active ensures HasSpace(d.store[x]) <==> x in d.available {
      if x in g.active {
        assert d.store[x] == g.store[x] && x !in h.available;
      } else {
        assert d.store[x] == h.store[x];
      }
    }
  }

  lemma DestinationOrder<T>(h: Hive<T>, g: Hive<T>)
    requires ListsOk(h) && OrderOk(h) && ListsOk(g) && ListsOk(Destination(h, g))
    requires forall id | id in g.store :: id !in h.store
    ensures OrderOk(Destination(h, g))
  {
    hide HasSpace, Renumbered, Requeued, Distinct, Total;
    var d := Destination(h, g);
    var n := |h.active|;
    forall p: nat | p < |d.active|
      ensures d.active[p] in d.order
      ensures p < n ==> d.active[p] in h.active && d.order[d.active[p]] == h.order[h.active[p]] < h.nextOrder
      ensures p >= n ==> d.order[d.active[p]] == h.nextOrder + (p - n)
    {
      if p < n {
        assert h.active[p] in h.active;
        RenumberedElsewhere(h.order, g.active, h.nextOrder, h.active[p]);
      } else {
        RenumberedAt(h.order, g.active, h.nextOrder, p - n);
      }
    }
    forall id | id in d.active ensures d.order[id] < d.nextOrder {
      var p: nat :| p < |d.active| && d.active[p] == id;
    }
  }

  lemma DestinationSums<T>(h: Hive<T>, g: Hive<T>, d: Hive<T>)
    requires ListsOk(h) && SumsOk(h) && ListsOk(g) && SumsOk(g) && ListsOk(d)
    requires d.active == h.active + g.active && d.reserved == h.reserved
    requires forall id | id in h.store :: id in d.store && d.store[id] == h.store[id]
    requires forall id | id in g.active :: id in d.store && d.store[id] == g.store[id]
    requires d.size == h.size + g.size && d.capacity == h.capacity + Total(g.store, g.active, false)
    ensures SumsOk(d)
  {
    TotalConcat(d.store, h.active, g.active, true);
    TotalConcat(d.store, h.active, g.active, false);
    TotalSame(h.store, d.store, h.active, true);
    TotalSame(h.store, d.store, h.active, false);
    TotalSame(h.store, d.store, h.reserved, false);
    TotalSame(g.store, d.store, g.active, true);
    TotalSame(g.store, d.store, g.active, false);
  }

  lemma DestinationKeeps<T>(h: Hive<T>, g: Hive<T>)
    requires CanSplice(h, g)
    ensures Inv(Destination(h, g))
  {
    hide HiveBlock.Valid, HasSpace, Total, Renumbered, Requeued;
    DestinationLists(h, g);
    DestinationAvailable(h, g);
    DestinationOrder(h, g);
    var d := Destination(h, g);
    DestinationSums(h, g, d);
    forall i ensures BlockOk(d, i) { assert BlockOk(h, i) && BlockOk(g, i); }
  }

  lemma SourceKeeps<T>(g: Hive<T>)
    requires Inv(g)
    ensures Total(g.store, g.active, false) <= g.capacity && Inv(Source(g))
    ensures forall l: Loc :: !LiveAt(Source(g), l)
  {
    hide HiveBlock.Valid, HasSpace, Contents;
    var s := Source(g);
    assert ListsOk(s) && AvailableOk(s);
    forall i ensures BlockOk(s, i) { assert BlockOk(g, i); }
    TotalSame(g.store, s.store, g.reserved, false);
    forall l: Loc ensures !LiveAt(s, l) {
      assert BlockOk(s, l.block);
      if l.block in s.store { BlockFacts(s.store[l.block]); }
    }
  }

  /** The destination's sequence is its own followed by the source's, locations and values kept. */
  lemma SpliceTraversal<T>(h: Hive<T>, g: Hive<T>, t: seq<Loc>, u: seq<Loc>)
    requires CanSplice(h, g) && Traversal(h, t) && Traversal(g, u)
    ensures Traversal(Destination(h, g), t + u)
    ensures Values(Destination(h, g), t + u) == Values(h, t) + Values(g, u)
  {
    hide Inv, CanSplice, Traversal, Values, Destination, LiveAt;
    ActiveStoredIn(h, g);
    SpliceVisits(h, g, t, u);
    TraversalLives(h, t);
    TraversalLives(g, u);
    TraversalLives(Destination(h, g), t + u);
    SpliceValues(h, g, t, u);
  }

  lemma ActiveStoredIn<T>(h: Hive<T>, g: Hive<T>)
    requires CanSplice(h, g)
    ensures forall id | id in g.active :: id in g.store
  {
    ActiveStored(g);
  }

  lemma SpliceVisits<T>(h: Hive<T>, g: Hive<T>, t: seq<Loc>, u: seq<Loc>)
    requires CanSplice(h, g) && Traversal(h, t) && Traversal(g, u)
    ensures forall id | id in g.active :: id in g.store
    ensures Traversal(Destination(h, g), t + u)
  {
    ActiveStoredIn(h, g);
    DestinationKeeps(h, g);
    hide Inv, Renumbered, Requeued, Total;
    var d := Destination(h, g);
    forall l: Loc ensures LiveAt(d, l) <==> LiveAt(h, l) || LiveAt(g, l) { SpliceLive(h, g, l); }
    hide Destination, LiveAt, CanSplice;
    var w := t + u;
    forall l | l in w ensures LiveAt(d, l) && l.block in d.order { LiveFacts(d, l); }
    forall p, q | 0 <= p < q < |w| ensures Before(d.order, w[p], w[q]) {
      SpliceBefore(h, g, t, u, p, q);
    }
  }

  lemma SpliceValues<T>(h: Hive<T>, g: Hive<T>, t: seq<Loc>, u: seq<Loc>)
    requires CanSplice(h, g) && (forall l | l in t :: LiveAt(h, l)) && (forall l | l in u :: LiveAt(g, l))
    requires (forall id | id in g.active :: id in g.store) && forall l | l in t + u :: LiveAt(Destination(h, g), l)
    ensures Values(Destination(h, g), t + u) == Values(h, t) + Values(g, u)
  {
    var d := Destination(h, g);
    hide Destination, LiveAt, ValueAt, CanSplice, Values;
    forall l | l in t ensures LiveAt(d, l) && ValueAt(d, l) == ValueAt(h, l) { SpliceLive(h, g, l); }
    forall l | l in u ensures LiveAt(d, l) && ValueAt(d, l) == ValueAt(g, l) { SpliceLive(h, g, l); }
    SameValues(h, d, t);
    SameValues(g, d, u);
    ValuesConcat(d, t, u);
  }

  lemma SameValues<T>(h: Hive<T>, d: Hive<T>, t: seq<Loc>)
    requires forall l | l in t :: LiveAt(h, l) && LiveAt(d, l) && ValueAt(d, l) == ValueAt(h, l)
    ensures Values(d, t) == Values(h, t)
  {
    hide LiveAt, ValueAt;
    assert forall i | 0 <= i < |t| :: t[i] in t;
  }

  lemma ValuesConcat<T>(d: Hive<T>, t: seq<Loc>, u: seq<Loc>)
    requires forall l | l in t + u :: LiveAt(d, l)
    ensures (forall l | l in t :: l in t + u) && (forall l | l in u :: l in t + u)
    ensures Values(d, t + u) == Values(d, t) + Values(d, u)
  {
    hide LiveAt, ValueAt;
  }

  lemma SpliceLive<T>(h: Hive<T>, g: Hive<T>, l: Loc)
    requires CanSplice(h, g)
    ensures forall id | id in g.active :: id in g.store
    ensures var d := Destination(h, g);
            && (LiveAt(d, l) <==> LiveAt(h, l) || LiveAt(g, l))
            && (LiveAt(h, l) ==> ValueAt(d, l) == ValueAt(h, l))
            && (LiveAt(g, l) ==> ValueAt(d, l) == ValueAt(g, l))
  {
    hide HiveBlock.Valid, Contents, Renumbered, Requeued, Total, AvailableOk, SumsOk, OrderOk;
    if LiveAt(g, l) { LiveFacts(g, l); }
  }

  lemma SpliceOrder<T>(h: Hive<T>, g: Hive<T>, id: nat)
    requires CanSplice(h, g) && (id in h.active || id in g.active)
    ensures forall i | i in g.active :: i in g.store
    ensures var d := Destination(h, g);
            && id in d.order
            && (id in h.active ==> id in h.order && d.order[id] == h.order[id] < h.nextOrder)
            && (id in g.active ==> d.order[id] == h.nextOrder + Position(g.active, id))
  {
    hide HiveBlock.Valid, Contents, Renumbered, Requeued, Total, AvailableOk, SumsOk, BlocksOk;
    if id in g.active {
      RenumberedAt(h.order, g.active, h.nextOrder, Position(g.active, id));
    } else {
      RenumberedElsewhere(h.order, g.active, h.nextOrder, id);
    }
  }

  lemma SpliceBefore<T>(h: Hive<T>, g: Hive<T>, t: seq<Loc>, u: seq<Loc>, p: nat, q: nat)
    requires CanSplice(h, g) && Traversal(h, t) && Traversal(g, u) && p < q < |t + u|
    ensures forall id | id in g.active :: id in g.store
    ensures var d, w := Destination(h, g), t + u;
            w[p].block in d.order && w[q].block in d.order && Before(d.order, w[p], w[q])
  {
    hide HiveBlock.Valid, LiveAt, Destination, Total, AvailableOk, SumsOk, BlocksOk;
    var w := t + u;
    if p < |t| {
      assert w[p] == t[p] && t[p] in t;
      LiveFacts(h, t[p]);
    } else {
      assert w[p] == u[p - |t|] && u[p - |t|] in u;
      LiveFacts(g, w[p]);
    }
    SpliceOrder(h, g, w[p].block);
    if q < |t| {
      assert w[q] == t[q] && t[q] in t;
      LiveFacts(h, t[q]);
    } else {
      assert w[q] == u[q - |t|] && u[q - |t|] in u;
      LiveFacts(g, w[q]);
    }
    SpliceOrder(h, g, w[q].block);
    if p >= |t| { OrderIsPosition(g, w[p].block, w[q].block); }
  }

  // ----- The operation in place

  datatype SpliceResult = Spliced | OutsideLimits | ControlFailed

  /** One pass over the source: do all active blocks fit, and how much capacity moves? */
  method MeasureFit<T>(c: Container<T>, lo: nat, hi: nat) returns (fits: bool, total: nat)
    requires c.Valid()
    ensures forall id | id in c.active.s :: id in c.store
    ensures fits <==> forall id | id in c.active.s :: lo <= c.store[id].capacity <= hi
    ensures fits ==> total == Total(c.store, c.active.s, false)
  {
    hide Inv;
    ActiveStored(c.View());
    FirstNonNull(c.active);
    var id := c.active.head;
    ghost var k := 0;
    total := 0;
    while id != NULL
      invariant k <= |c.active.s| && id == (if k < |c.active.s| then c.active.s[k] else NULL)
      invariant id == NULL <==> k == |c.active.s|
      invariant forall i | 0 <= i < k :: lo <= c.store[c.active.s[i]].capacity <= hi
      invariant forall x | x in c.active.s[..k] :: x in c.store
      invariant total == Total(c.store, c.active.s[..k], false)
      decreases |c.active.s| - k
    {
      assert id in c.active.s;
      if !(lo <= c.store[id].capacity <= hi) {
        return false, total;
      }
      assert c.active.s[..k + 1] == c.active.s[..k] + [id];
      TotalConcat(c.store, c.active.s[..k], [id], false);
      total := total + c.store[id].capacity;
      id := c.active.Successor(id, k);
      k := k + 1;
    }
    assert c.active.s[..k] == c.active.s;
    fits := true;
  }

  /** State of the renumbering loop after `k` of the moved blocks. */
  ghost predicate Moved<T>(h: Hive<T>, g: Hive<T>, d: Hive<T>, s: map<nat, Block<T>>, k: nat) {
    && k <= |g.active| && (forall id | id in g.active :: id in g.store)
    && d.store == h.store + (map id | id in g.active[..k] && id in g.store :: g.store[id])
    && s == (map id | id in g.store && id !in g.active[..k] :: g.store[id])
    && d.order == Renumbered(h.order, g.active[..k], h.nextOrder)
    && d.nextOrder == h.nextOrder + k
    && d.available == Requeued(h.available, g.active[..k], g.available)
    && d.active == h.active + g.active && d.reserved == h.reserved
    && d.size == h.size && d.capacity == h.capacity && d.min == h.min && d.max == h.max
  }

  lemma MovedStores<T>(hs: map<nat, Block<T>>, gs: map<nat, Block<T>>, a: seq<nat>, id: nat,
                       ds: map<nat, Block<T>>, s: map<nat, Block<T>>)
    requires ds == hs + (map x | x in a && x in gs :: gs[x]) && id !in a
    requires s == (map x | x in gs && x !in a :: gs[x]) && id in s
    ensures ds[id := s[id]] == hs + (map x | x in a + [id] && x in gs :: gs[x])
    ensures s - {id} == (map x | x in gs && x !in a + [id] :: gs[x])
  {
  }

  lemma MovedStep<T>(h: Hive<T>, g: Hive<T>, d: Hive<T>, s: map<nat, Block<T>>, k: nat, d': Hive<T>, s': map<nat, Block<T>>)
    requires Moved(h, g, d, s, k) && k < |g.active| && g.active[k] in s
    requires var id := g.active[k];
             && d' == d.(store := d.store[id := s[id]], order := d.order[id := d.nextOrder], nextOrder := d.nextOrder + 1,
                         available := if id in g.available then [id] + d.available else d.available)
             && s' == s - {id}
    ensures Moved(h, g, d', s', k + 1)
  {
    var id := g.active[k];
    var a := g.active[..k];
    assert g.active[..k + 1] == a + [id];
    MovedStores(h.store, g.store, a, id, d.store, s);
    RenumberedSnoc(h.order, a, id, h.nextOrder);
    RequeuedSnoc(h.available, a, id, g.available);
    hide Renumbered, Requeued;
  }

  lemma RenumberedSnoc(order: map<nat, nat>, ids: seq<nat>, x: nat, n: nat)
    ensures Renumbered(order, ids + [x], n) == Renumbered(order, ids, n)[x := n + |ids|]
  {
    assert (ids + [x])[..|ids|] == ids;
  }

  lemma RequeuedSnoc(available: seq<nat>, ids: seq<nat>, x: nat, flags: seq<nat>)
    ensures var r := Requeued(available, ids, flags);
      Requeued(available, ids + [x], flags) == if x in flags then [x] + r else r
  {
    assert (ids + [x])[..|ids|] == ids;
  }

  lemma MovedAll<T>(h: Hive<T>, g: Hive<T>, d: Hive<T>, s: map<nat, Block<T>>)
    requires Moved(h, g, d, s, |g.active|) && Total(g.store, g.active, false) <= g.capacity
    ensures d.size == h.size && d.capacity == h.capacity
    ensures Destination(h, g) == d.(size := h.size + g.size, capacity := h.capacity + Total(g.store, g.active, false))
    ensures Source(g).store == s
  {
    hide Renumbered, Requeued, Total;
    assert g.active[..|g.active|] == g.active;
    assert d.store == h.store + map id | id in g.active :: g.store[id];
  }

  lemma MovedFacts<T>(h: Hive<T>, g: Hive<T>, d: Hive<T>, s: map<nat, Block<T>>, k: nat)
    requires CanSplice(h, g) && Moved(h, g, d, s, k) && k < |g.active|
    ensures g.active[k] in s && g.active[k] != NULL && g.active[k] !in d.available
    ensures d.active[|h.active| + k] == g.active[k] && |d.active| == |h.active| + |g.active|
    ensures Distinct(g.active)
  {
    hide HiveBlock.Valid, HasSpace, Total, SumsOk, BlocksOk, OrderOk, Requeued;
    var id := g.active[k];
    var a := g.active[..k];
    assert id in g.active && id !in a && id in g.store && id !in h.store;
    assert id !in h.available;
    hide ListsOk, AvailableOk, Distinct, Inv;
    RequeuedMembers(h.available, a, g.available);
  }

  lemma SpliceReady<T>(h: Hive<T>, g: Hive<T>)
    requires CanSplice(h, g)
    ensures forall x | x in h.active :: x !in g.active
  {
  }

  /** Renumbers and re-registers block `id`, the `k`-th of the moved chain. */
  method AdoptBlock<T>(dst: Container<T>, src: Container<T>, id: nat, ghost h: Hive<T>, ghost g: Hive<T>, ghost k: nat)
    requires dst.Linked() && dst.Frame() !! src.Frame()
    requires CanSplice(h, g) && Moved(h, g, dst.View(), src.store, k) && k < |g.active| && id == g.active[k]
    requires forall x :: x in src.inAvailable <==> x in g.available
    modifies dst, dst.available, src`store
    ensures dst.Linked() && Moved(h, g, dst.View(), src.store, k + 1)
    ensures dst.endEpoch == old(dst.endEpoch) && dst.activeTail == old(dst.activeTail)
  {
    hide CanSplice, Moved, DList.NodeOk, SList.NodeOk, Distinct;
    ghost var d, s := dst.View(), src.store;
    MovedFacts(h, g, d, s, k);
    dst.store := dst.store[id := src.store[id]];
    src.store := src.store - {id};
    dst.order := dst.order[id := dst.nextOrder];
    dst.nextOrder := dst.nextOrder + 1;
    if id in src.inAvailable {
      dst.AvailableAdd(id);
    }
    MovedStep(h, g, d, s, k, dst.View(), src.store);
  }

  /** The loop over the chain that now hangs off the destination. */
  method AdoptBlocks<T>(dst: Container<T>, src: Container<T>, first: nat, ghost h: Hive<T>, ghost g: Hive<T>)
    requires dst.Linked() && dst.Frame() !! src.Frame()
    requires CanSplice(h, g) && Moved(h, g, dst.View(), src.store, 0) && g.active != [] && first == g.active[0]
    requires forall x :: x in src.inAvailable <==> x in g.available
    modifies dst, dst.available, src`store
    ensures dst.Linked() && Moved(h, g, dst.View(), src.store, |g.active|)
    ensures dst.endEpoch == old(dst.endEpoch) && dst.activeTail == old(dst.activeTail)
  {
    hide CanSplice, Moved;
    var id := first;
    ghost var k := 0;
    MovedFacts(h, g, dst.View(), src.store, 0);
    while id != NULL
      invariant dst.Linked() && k <= |g.active| && Moved(h, g, dst.View(), src.store, k)
      invariant id == (if k < |g.active| then g.active[k] else NULL) && (id == NULL <==> k == |g.active|)
      invariant forall x :: x in src.inAvailable <==> x in g.available
      invariant dst.endEpoch == old(dst.endEpoch) && dst.activeTail == old(dst.activeTail)
      decreases |g.active| - k
    {
      MovedFacts(h, g, dst.View(), src.store, k);
      ghost var d := dst.View();
      AdoptBlock(dst, src, id, h, g, k);
      MovedLists(h, g, dst.View(), src.store, k + 1);
      id := dst.active.Successor(id, |h.active| + k);
      k := k + 1;
    }
  }

  lemma MovedLists<T>(h: Hive<T>, g: Hive<T>, d: Hive<T>, s: map<nat, Block<T>>, k: nat)
    requires Moved(h, g, d, s, k)
    ensures d.active == h.active + g.active
    ensures k < |g.active| ==> d.active[|h.active| + k] == g.active[k]
  {
  }

  /** A container without a control block: nothing stored, listed or counted. */
  ghost predicate NoControl<T>(h: Hive<T>) {
    h.store == map[] && h.order == map[] && h.nextOrder == 0 && h.active == [] && h.available == [] && h.reserved == []
    && h.size == 0 && h.capacity == 0
  }

  lemma NoControlKeeps<T>(h: Hive<T>)
    requires NoControl(h) && 1 <= h.min <= h.max
    ensures Inv(h) && Traversal(h, [])
  {
  }

  lemma NoControlIsEmpty<T>(h: Hive<T>, t: seq<Loc>, u: seq<Loc>)
    requires Inv(h) && NoControl(h) && Traversal(h, t)
    ensures t == [] && t + u == u
  {
    hide Inv;
    SizeIsLength(h, t);
  }

  /** The source's state under the destination's limits, when nothing is reserved and every block fits. */
  lemma AdoptedKeeps<T>(h: Hive<T>, g: Hive<T>, u: seq<Loc>)
    requires CanSplice(h, g) && g.reserved == [] && Traversal(g, u)
    ensures var d := g.(min := h.min, max := h.max);
      Inv(d) && Traversal(d, u) && Values(d, u) == Values(g, u)
  {
    hide LiveAt, Traversal, Values, SameElements, HiveBlock.Valid;
    ActiveStored(g);
    forall id | id in g.store ensures h.min <= g.store[id].capacity <= h.max {
      assert id in g.active;
    }
    LimitsFacts(h);
    RelimitKeeps(g, h.min, h.max);
    SameTraversal(g, g.(min := h.min, max := h.max), u);
  }

  /** The control block changes hands; limits do not. */
  method AdoptControl<T>(dst: Container<T>, src: Container<T>)
    requires dst.Linked() && src.Linked() && dst.Frame() !! src.Frame() && src.reserved.s == [] && dst.reserved.s == []
    modifies dst.Frame(), src.Frame()
    ensures dst.Linked() && src.Linked()
    ensures dst.View() == old(src.View()).(min := old(dst.min), max := old(dst.max))
    ensures NoControl(src.View()) && src.min == old(src.min) && src.max == old(src.max)
    ensures dst.endEpoch == old(dst.endEpoch) + 1 && src.endEpoch == old(src.endEpoch) + 1
  {
    AdoptActive(dst, src);
    AdoptAvailable(dst, src);
    hide DList.Valid, SList.Valid;
    AdoptCounters(dst, src);
  }

  method AdoptActive<T>(dst: Container<T>, src: Container<T>)
    requires dst.Linked() && src.Linked() && dst.Frame() !! src.Frame()
    modifies dst`activeTail, dst.active, src`activeTail, src.active
    ensures dst.Linked() && src.Linked()
    ensures dst.View() == old(dst.View()).(active := old(src.active.s)) && src.View() == old(src.View()).(active := [])
  {
    hide DList.NodeOk, SList.NodeOk, Distinct;
    dst.activeTail, src.activeTail := src.activeTail, NULL;
    dst.active.TakeOver(src.active);
  }

  method AdoptAvailable<T>(dst: Container<T>, src: Container<T>)
    requires dst.Linked() && src.Linked() && dst.Frame() !! src.Frame()
    modifies dst`inAvailable, dst.available, src`inAvailable, src.available
    ensures dst.Linked() && src.Linked()
    ensures dst.View() == old(dst.View()).(available := old(src.available.s))
    ensures src.View() == old(src.View()).(available := [])
  {
    hide DList.NodeOk, SList.NodeOk, Distinct;
    dst.inAvailable, src.inAvailable := src.inAvailable, {};
    dst.available.TakeOver(src.available);
  }

  method AdoptCounters<T>(dst: Container<T>, src: Container<T>)
    requires dst.Linked() && src.Linked() && dst.Frame() !! src.Frame()
    modifies dst, src
    ensures dst.Linked() && src.Linked()
    ensures dst.View() == old(dst.View()).(store := old(src.store), order := old(src.order),
                                           nextOrder := old(src.nextOrder), size := old(src.size),
                                           capacity := old(src.capacity))
    ensures src.View() == old(src.View()).(store := map[], order := map[], nextOrder := 0, size := 0, capacity := 0)
    ensures dst.endEpoch == old(dst.endEpoch) + 1 && src.endEpoch == old(src.endEpoch) + 1
  {
    hide DList.Valid, SList.Valid;
    SetCounters(dst, src.store, src.order, src.nextOrder, src.size, src.capacity);
    SetCounters(src, map[], map[], 0, 0, 0);
  }

  method SetCounters<T>(c: Container<T>, store: map<nat, Block<T>>, order: map<nat, nat>, nextOrder: nat,
                        size: nat, capacity: nat)
    requires c.Linked()
    modifies c
    ensures c.Linked() && c.endEpoch == old(c.endEpoch) + 1
    ensures c.View() == old(c.View()).(store := store, order := order, nextOrder := nextOrder,
                                       size := size, capacity := capacity)
  {
    hide DList.NodeOk, SList.NodeOk, Distinct;
    c.store, c.order, c.nextOrder, c.size, c.capacity := store, order, nextOrder, size, capacity;
    c.endEpoch := c.endEpoch + 1;
  }

  /**
    splice: on success the destination's sequence is followed by the source's, every
    element keeping its location and value, and the source holds no element; on a limits
    failure, or when a control block is needed and cannot be allocated, neither container
    changes.  `control` says whether the destination has one, `allocates` whether one can be had.
   */
  method Splice<T>(dst: Container<T>, src: Container<T>, control: bool, allocates: bool,
                   ghost t: seq<Loc>, ghost u: seq<Loc>)
    returns (r: SpliceResult)
    requires dst.Valid() && src.Valid() && dst.Frame() !! src.Frame() && (!control ==> NoControl(dst.View()))
    requires forall id | id in src.store :: id !in dst.store
    requires Traversal(dst.View(), t) && Traversal(src.View(), u)
    modifies dst.Frame(), src.Frame()
    ensures dst.Valid() && src.Valid()
    ensures r.OutsideLimits? <==>
              exists id :: id in old(src.active.s) && id in old(src.store)
                           && !(old(dst.min) <= old(src.store)[id].capacity <= old(dst.max))
    ensures r.ControlFailed? <==>
              && !r.OutsideLimits? && old(src.active.s) != [] && old(src.reserved.s) != []
              && !control && !allocates
    ensures !r.Spliced? ==>
              && dst.View() == old(dst.View()) && src.View() == old(src.View())
              && dst.endEpoch == old(dst.endEpoch) && src.endEpoch == old(src.endEpoch)
    ensures r.Spliced? ==>
              && Traversal(dst.View(), t + u)
              && Values(dst.View(), t + u) == Values(old(dst.View()), t) + Values(old(src.View()), u)
              && Traversal(src.View(), []) && src.reserved.s == old(src.reserved.s)
              && dst.size == old(dst.size + src.size) && src.size == 0
              && dst.capacity + src.capacity == old(dst.capacity + src.capacity)
              && dst.min == old(dst.min) && dst.max == old(dst.max)
              && dst.endEpoch == old(dst.endEpoch) + 1 && src.endEpoch == old(src.endEpoch) + 1
  {
    hide Inv, LiveAt, ValueAt, Traversal, Values, Moved, Total, Destination, Source;
    ghost var h, g := dst.View(), src.View();
    var fits, movedCapacity := MeasureFit(src, dst.min, dst.max);
    if !fits {
      return OutsideLimits;
    }
    FirstNonNull(src.active);
    ReservedNonNull(src.reserved);
    if src.active.head == NULL {
      NothingToSplice(h, g, t, u);
      dst.endEpoch := dst.endEpoch + 1;
      src.endEpoch := src.endEpoch + 1;
      return Spliced;
    }
    FitsCanSplice(h, g);
    if !control && src.reserved.head == NULL {
      SpliceByAdoption(dst, src, t, u);
      return Spliced;
    }
    if !control && !allocates {
      return ControlFailed;
    }
    MoveBlocks(dst, src, movedCapacity);
    SpliceTraversal(h, g, t, u);
    DestinationKeeps(h, g);
    SourceKeeps(g);
    SourceTraversal(g);
    SpliceCounters(h, g);
    r := Spliced;
  }

  /** The shortcut for a destination without a control block and a source without reserved blocks. */
  method SpliceByAdoption<T>(dst: Container<T>, src: Container<T>, ghost t: seq<Loc>, ghost u: seq<Loc>)
    requires dst.Valid() && src.Valid() && dst.Frame() !! src.Frame() && NoControl(dst.View())
    requires CanSplice(dst.View(), src.View()) && src.reserved.s == []
    requires Traversal(dst.View(), t) && Traversal(src.View(), u)
    modifies dst.Frame(), src.Frame()
    ensures dst.Valid() && src.Valid()
    ensures Traversal(dst.View(), t + u)
    ensures Values(dst.View(), t + u) == Values(old(dst.View()), t) + Values(old(src.View()), u)
    ensures Traversal(src.View(), []) && src.reserved.s == []
    ensures dst.size == old(src.size) && src.size == 0 && dst.capacity == old(src.capacity) && src.capacity == 0
    ensures dst.min == old(dst.min) && dst.max == old(dst.max)
    ensures dst.endEpoch == old(dst.endEpoch) + 1 && src.endEpoch == old(src.endEpoch) + 1
  {
    ghost var h, g := dst.View(), src.View();
    LimitsFacts(g);
    NoControlIsEmpty(h, t, u);
    AdoptedKeeps(h, g, u);
    hide Inv, LiveAt, Traversal, CanSplice;
    AdoptControl(dst, src);
    NoControlKeeps(src.View());
    assert Values(h, t) == [];
  }

  lemma FitsCanSplice<T>(h: Hive<T>, g: Hive<T>)
    requires Inv(h) && Inv(g) && forall id | id in g.store :: id !in h.store
    requires forall id | id in g.active :: id in g.store && h.min <= g.store[id].capacity <= h.max
    ensures CanSplice(h, g)
  {
  }

  lemma SourceTraversal<T>(g: Hive<T>)
    requires Inv(g) && Total(g.store, g.active, false) <= g.capacity
    ensures forall id | id in g.active :: id in g.store
    ensures Traversal(Source(g), [])
  {
    hide Inv;
    ActiveStored(g);
    SourceKeeps(g);
  }

  lemma SpliceCounters<T>(h: Hive<T>, g: Hive<T>)
    requires (forall id | id in g.active :: id in g.store) && Total(g.store, g.active, false) <= g.capacity
    ensures Source(g).size == 0 && Source(g).reserved == g.reserved
    ensures Destination(h, g).size == h.size + g.size
    ensures Destination(h, g).capacity + Source(g).capacity == h.capacity + g.capacity
    ensures Destination(h, g).min == h.min && Destination(h, g).max == h.max
  {
  }

  lemma NothingToSplice<T>(h: Hive<T>, g: Hive<T>, t: seq<Loc>, u: seq<Loc>)
    requires Inv(g) && g.active == [] && Traversal(h, t) && Traversal(g, u)
    ensures u == [] && t + u == t && g.size == 0
    ensures Values(h, t + u) == Values(h, t) + Values(g, u)
  {
    SizeIsLength(g, u);
    assert u == [];
    assert t + u == t;
  }

  /** The source's chain moves behind the destination's. */
  method JoinChains<T>(dst: Container<T>, src: Container<T>) returns (first: nat)
    requires dst.Linked() && src.Linked() && dst.Frame() !! src.Frame() && src.active.s != []
    requires forall x | x in dst.active.s :: x !in src.active.s
    modifies dst`activeTail, dst.active, src`activeTail, src.active
    ensures dst.Linked() && src.Linked() && first == old(src.active.s)[0]
    ensures dst.View() == old(dst.View()).(active := old(dst.active.s) + old(src.active.s))
    ensures src.View() == old(src.View()).(active := [])
  {
    first := src.active.head;
    var tail := src.activeTail;
    dst.active.Adopt(src.active, dst.activeTail);
    dst.activeTail := tail;
    src.activeTail := NULL;
  }

  /** Counters and flags after the blocks have moved. */
  method SettleCounters<T>(dst: Container<T>, src: Container<T>, movedSize: nat, movedCapacity: nat)
    requires dst.Linked() && src.Linked() && dst.Frame() !! src.Frame() && movedCapacity <= src.capacity
    modifies dst, src, src.available
    ensures dst.Linked() && src.Linked()
    ensures dst.View() == old(dst.View()).(size := old(dst.size) + movedSize, capacity := old(dst.capacity) + movedCapacity)
    ensures src.View() == old(src.View()).(available := [], size := 0, capacity := old(src.capacity) - movedCapacity)
    ensures dst.endEpoch == old(dst.endEpoch) + 1 && src.endEpoch == old(src.endEpoch) + 1
  {
    hide DList.NodeOk, SList.NodeOk, Distinct;
    src.available.Clear();
    src.inAvailable := {};
    src.size := 0;
    src.capacity := src.capacity - movedCapacity;
    dst.size := dst.size + movedSize;
    dst.capacity := dst.capacity + movedCapacity;
    dst.endEpoch := dst.endEpoch + 1;
    src.endEpoch := src.endEpoch + 1;
  }

  /** The commit: pointer and counter updates only. */
  method MoveBlocks<T>(dst: Container<T>, src: Container<T>, movedCapacity: nat)
    requires dst.Linked() && src.Linked() && dst.Frame() !! src.Frame()
    requires CanSplice(dst.View(), src.View()) && src.active.s != []
    requires forall id | id in src.active.s :: id in src.store
    requires movedCapacity == Total(src.store, src.active.s, false)
    modifies dst.Frame(), src.Frame()
    ensures dst.Linked() && src.Linked()
    ensures forall id | id in old(src.active.s) :: id in old(src.store)
    ensures old(Total(src.store, src.active.s, false)) <= old(src.capacity)
    ensures dst.View() == Destination(old(dst.View()), old(src.View())) && src.View() == Source(old(src.View()))
    ensures dst.endEpoch == old(dst.endEpoch) + 1 && src.endEpoch == old(src.endEpoch) + 1
  {
    hide CanSplice, Moved, Total, Destination, Source;
    ghost var h, g := dst.View(), src.View();
    SpliceReady(h, g);
    SourceCapacity(h, g);
    var first := JoinChains(dst, src);
    MovedNone(h, g, dst.View(), src.store);
    AdoptBlocks(dst, src, first, h, g);
    MovedAll(h, g, dst.View(), src.store);
    SettleCounters(dst, src, src.size, movedCapacity);
    SourceIs(g, src.View());
  }

  lemma SourceIs<T>(g: Hive<T>, s: Hive<T>)
    requires (forall id | id in g.active :: id in g.store) && Total(g.store, g.active, false) <= g.capacity
    requires s == g.(store := Source(g).store, active := [], available := [], size := 0,
                     capacity := g.capacity - Total(g.store, g.active, false))
    ensures s == Source(g)
  {
  }

  lemma SourceCapacity<T>(h: Hive<T>, g: Hive<T>)
    requires CanSplice(h, g)
    ensures forall id | id in g.active :: id in g.store
    ensures Total(g.store, g.active, false) <= g.capacity
  {
  }

  lemma AddNothing<T>(hs: map<nat, Block<T>>, gs: map<nat, Block<T>>, a: seq<nat>)
    ensures hs + (map x | x in a && x in gs :: gs[x]) == hs || a != []
  {
  }

  lemma MovedNone<T>(h: Hive<T>, g: Hive<T>, d: Hive<T>, s: map<nat, Block<T>>)
    requires d == h.(active := h.active + g.active) && s == g.store
    requires forall id | id in g.active :: id in g.store
    ensures Moved(h, g, d, s, 0)
  {
    assert g.active[..0] == [];
    AddNothing(h.store, g.store, g.active[..0]);
    assert (map id | id in g.store && id !in g.active[..0] :: g.store[id]) == g.store;
  }
}
