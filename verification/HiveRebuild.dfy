/**
  Rebuilding: elements move, in order, into a container that was reserved for
  them.  Such a container never needs to allocate while elements move, and its
  element sequence grows strictly at the end.
 */
module HiveRebuild {
  import opened HiveBlock
  import opened HiveModel
  import opened HiveModelProofs
  import opened HiveTraversal
  import opened HiveElements
  import opened HiveLists
  import opened HiveContainer
  import opened HiveCapacity
  import opened HiveAlgorithms
  import Proofs = HiveBlockProofs
  import Planner = HivePlanner

  // ----- A container that only ever grew

  /** No dead runs anywhere, and only the last active block can have space. */
  ghost predicate Packed<T>(h: Hive<T>) {
    && (forall id | id in h.active :: id in h.store && h.store[id].freeHead == NPOS)
    && (forall id | id in h.available :: h.active != [] && id == h.active[|h.active| - 1])
  }

  /** Appending a location above all others. */
  lemma AppendTraversal<T>(h: Hive<T>, h': Hive<T>, t: seq<Loc>, l: Loc, v: T)
    requires Inv(h) && Traversal(h, t) && AddedAt(h, h', l, v) && l.block in h'.order
    requires forall m | m in t :: m.block in h'.order && Before(h'.order, m, l)
    ensures Traversal(h', t + [l])
    ensures Values(h', t + [l]) == Values(h, t) + [v]
  {
    hide LiveAt, BlocksOk, AvailableOk, SumsOk, ValueAt, OrderOk;
    var u := t + [l];
    assert forall m | m in u :: m in t || m == l;
    forall m | m in t ensures m.block in h'.order && m.block in h.order && h'.order[m.block] == h.order[m.block] {
      LiveFacts(h, m);
    }
    forall i, j | 0 <= i < j < |u| ensures Before(h'.order, u[i], u[j]) {
      assert u[i] == t[i] && t[i] in t;
      if j < |t| { assert u[j] == t[j] && t[j] in t; }
    }
    assert forall i | 0 <= i < |t| :: t[i] in t;
  }

  lemma AvailableAppends<T>(h: Hive<T>, v: T, h': Hive<T>, t: seq<Loc>)
    requires Inv(h) && Packed(h) && Traversal(h, t) && TookAvailable(h, v, h')
    ensures var l := Loc(h.available[0], EmplaceIndex(h.store[h.available[0]]));
            && Packed(h') && AddedAt(h, h', l, v)
            && Traversal(h', t + [l]) && Values(h', t + [l]) == Values(h, t) + [v]
  {
    hide LiveAt, ValueAt, Traversal, Values;
    EmplaceAvailableKeeps(h, v);
    var l := Loc(h.available[0], EmplaceIndex(h.store[h.available[0]]));
    AvailableIsLast(h, v, h', t, l);
    hide Packed, Inv, TookAvailable, AddedAt, EmplaceIndex;
    AppendTraversal(h, h', t, l, v);
  }

  /** The block that is filled up is the last one, and the slot the last in it. */
  lemma AvailableIsLast<T>(h: Hive<T>, v: T, h': Hive<T>, t: seq<Loc>, l: Loc)
    requires Inv(h) && Packed(h) && Traversal(h, t) && TookAvailable(h, v, h')
    requires l == Loc(h.available[0], EmplaceIndex(h.store[h.available[0]])) && AddedAt(h, h', l, v)
    ensures Packed(h') && l.block in h'.order
    ensures forall m | m in t :: m.block in h'.order && Before(h'.order, m, l)
  {
    hide LiveAt, BlocksOk, SumsOk, ValueAt;
    assert h.available[0] in h.available;
    assert forall i | i in h'.available :: i in h.available;
    hide EmplaceIndex, Sized, HasSpace, EmplaceReadable, AddedAt;
    forall m | m in t ensures m.block in h'.order && Before(h'.order, m, l) {
      LiveFacts(h, m);
      OrderIsPosition(h, m.block, l.block);
    }
  }

  lemma ReservedAppends<T>(h: Hive<T>, v: T, h': Hive<T>, t: seq<Loc>)
    requires Inv(h) && Packed(h) && Traversal(h, t) && TookReserved(h, v, h')
    ensures var l := Loc(h.reserved[0], 0);
            && Packed(h') && AddedAt(h, h', l, v)
            && Traversal(h', t + [l]) && Values(h', t + [l]) == Values(h, t) + [v]
  {
    hide LiveAt, BlocksOk, SumsOk, ValueAt;
    var id := h.reserved[0];
    EmplaceReservedKeeps(h, v);
    ReservedPristine(h);
    assert id in h.reserved;
    var l := Loc(id, 0);
    assert forall i | i in h'.active :: i in h.active || i == id;
    forall m | m in t ensures m.block in h'.order && Before(h'.order, m, l) {
      LiveFacts(h, m);
    }
    AppendTraversal(h, h', t, l, v);
  }

  lemma ReservedPristine<T>(h: Hive<T>)
    requires Inv(h) && h.reserved != []
    ensures h.reserved[0] in h.store && h.store[h.reserved[0]].freeHead == NPOS
  {
    ReservedFacts(h);
    Proofs.EmptyIsPristine(h.store[h.reserved[0]]);
  }

  /** When no block has room and none is reserved, the container is exactly full. */
  lemma FullIsFull<T>(h: Hive<T>)
    requires Inv(h) && h.available == [] && h.reserved == []
    ensures h.size == h.capacity
  {
    hide HiveBlock.Valid, HasSpace;
    forall id | id in h.active ensures id in h.store && h.store[id].liveCount == h.store[id].capacity {
      assert BlockOk(h, id);
      Proofs.SpaceIffNotFull(h.store[id]);
      LiveAtMostCapacity(h.store[id]);
    }
    TotalLiveIsCapacity(h.store, h.active);
  }

  lemma {:induction false} TotalLiveIsCapacity<T>(s: map<nat, Block<T>>, ids: seq<nat>)
    requires forall id | id in ids :: id in s && s[id].liveCount == s[id].capacity
    ensures Total(s, ids, true) == Total(s, ids, false)
  {
    if ids != [] {
      assert ids[0] in ids && forall id | id in ids[1..] :: id in ids;
      TotalLiveIsCapacity(s, ids[1..]);
    }
  }

  // ----- Moving everything over

  /** One move: the element lands at the end without any allocation. */
  method AppendMoved<T>(d: Container<T>, v: T, ghost u: seq<Loc>) returns (ghost u': seq<Loc>)
    requires d.Valid() && Packed(d.View()) && Traversal(d.View(), u) && d.size < d.capacity
    modifies d.Frame()
    ensures d.Valid() && Packed(d.View()) && Traversal(d.View(), u')
    ensures Values(d.View(), u') == Values(old(d.View()), u) + [v]
    ensures d.size == old(d.size) + 1 && d.capacity == old(d.capacity) && d.min == old(d.min) && d.max == old(d.max)
    ensures d.store.Keys == old(d.store).Keys
  {
    hide Inv, LiveAt, ValueAt, Packed, AddedAt, Traversal;
    ghost var h := d.View();
    RoomSomewhere(h);
    var r := d.Emplace(v, false, Allocator(0, 0, false, NULL, _ => 0));
    if h.available != [] {
      AvailableAppends(h, v, d.View(), u);
      TookSizes(h, v, d.View());
    } else {
      ReservedAppends(h, v, d.View(), u);
      TookSizes(h, v, d.View());
    }
    u' := u + [r.loc];
  }

  lemma RoomSomewhere<T>(h: Hive<T>)
    requires Inv(h) && h.size < h.capacity
    ensures h.available + h.reserved != []
  {
    hide Inv;
    if h.available == [] && h.reserved == [] { FullIsFull(h); }
  }

  lemma TookSizes<T>(h: Hive<T>, v: T, h': Hive<T>)
    requires TookAvailable(h, v, h') || TookReserved(h, v, h')
    ensures h'.size == h.size + 1 && h'.store.Keys == h.store.Keys
  {
  }

  /** append_move_to: the destination holds the source's values in the source's order. */
  method AppendMoveTo<T>(c: Container<T>, d: Container<T>, ghost t: seq<Loc>) returns (ghost u: seq<Loc>)
    requires c.Valid() && d.Valid() && c.Frame() !! d.Frame()
    requires Traversal(c.View(), t) && Packed(d.View()) && d.size == 0 && c.size <= d.capacity
    modifies d.Frame()
    ensures d.Valid() && Packed(d.View()) && d.size == c.size
    ensures Traversal(d.View(), u) && Values(d.View(), u) == Values(c.View(), t)
    ensures d.capacity == old(d.capacity) && d.min == old(d.min) && d.max == old(d.max)
    ensures d.store.Keys == old(d.store).Keys
  {
    hide Inv, LiveAt, ValueAt, Packed, Holds, Traversal, Values, Container.Valid;
    ghost var h := c.View();
    var cur := Start(c, t);
    u := EmptyTraversal(d);
    ghost var n := 0;
    ValuesPrefix(h, t, 0);
    while cur.At?
      invariant c.Valid() && d.Valid() && Packed(d.View()) && c.View() == h
      invariant n <= |t| && cur == PositionIn(t, n) && d.size == n && Holds(h, h, t)
      invariant forall l | l in t :: LiveAt(h, l)
      invariant Traversal(d.View(), u) && forall l | l in u :: LiveAt(d.View(), l)
      invariant Values(d.View(), u) == Values(h, t)[..n]
      invariant d.capacity == old(d.capacity) && d.min == old(d.min) && d.max == old(d.max)
      invariant d.store.Keys == old(d.store).Keys
      decreases |t| - n
    {
      var v := Read(c, cur.loc, h, t, n);
      ValuesPrefix(h, t, n);
      u := AppendMoved(d, v, u);
      TraversalLives(d.View(), u);
      cur := Advance(c, cur.loc, h, t, n);
      n := n + 1;
    }
    ValuesPrefix(h, t, n);
  }

  lemma TraversalLives<T>(h: Hive<T>, u: seq<Loc>)
    requires Traversal(h, u)
    ensures forall l | l in u :: LiveAt(h, l)
  {
  }

  lemma ValuesPrefix<T>(h: Hive<T>, t: seq<Loc>, n: nat)
    requires n <= |t| && forall l | l in t :: LiveAt(h, l)
    ensures n < |t| ==> t[n] in t && Values(h, t)[..n + 1] == Values(h, t)[..n] + [ValueAt(h, t[n])]
    ensures Values(h, t)[..0] == [] && Values(h, t)[..|t|] == Values(h, t)
  {
  }

  /** An empty container has the empty traversal. */
  lemma EmptyTraversal<T>(d: Container<T>) returns (u: seq<Loc>)
    requires d.Valid() && d.size == 0
    ensures u == [] && Traversal(d.View(), u) && Values(d.View(), u) == []
  {
    ScanIsTraversal(d.View());
    var s := Scan(d.View(), |d.active.s|);
    SizeIsLength(d.View(), s);
    u := [];
    assert s == [];
  }

  // ----- shrink_to_fit

  datatype ShrinkResult = Shrunk | ShrinkOutOfMemory

  /** The rebuild shrink_to_fit goes for: one whose plan takes less than the active blocks have. */
  ghost function ShrinkPlan<T>(h: Hive<T>, maxSize: nat, allocatorMax: nat): Planner.Option<Planner.Plan>
    requires Inv(h)
  {
    if h.size == 0 || h.size == ActiveCapacity(h) then Planner.None
    else
      var plan := Planner.PlanCapacity(0, h.size, maxSize, h.min, BlockLimit(h.max, allocatorMax));
      if plan.Some? && plan.value.added < ActiveCapacity(h) then plan else Planner.None
  }

  /**
    shrink_to_fit: the result holds the same values in the same order, under the same
    limits.  No reserved block survives, and where a smaller plan exists and its blocks can be
    allocated the capacity is the planned one.  `d` is the container that ends up behind the
    caller's object: `c` itself, or the rebuilt one that was swapped in.
   */
  method ShrinkToFit<T>(c: Container<T>, maxSize: nat, allocatorMax: nat, addresses: seq<nat>, garbage: nat -> nat,
                        ghost t: seq<Loc>)
    returns (r: ShrinkResult, d: Container<T>, ghost u: seq<Loc>)
    requires c.Valid() && Traversal(c.View(), t)
    requires Distinct(addresses) && NULL !in addresses
    modifies c.Frame()
    ensures d.Valid() && Traversal(d.View(), u) && Values(d.View(), u) == Values(old(c.View()), t)
    ensures d.capacity <= old(c.capacity) && d.min == old(c.min) && d.max == old(c.max)
    ensures d == c ==>
              && OnlyReserved(old(c.View()), c.View()) && u == t
              && c.reserved.s == [] && c.capacity == ActiveCapacity(old(c.View()))
    ensures d != c ==> fresh(d.Frame()) && d.capacity < old(c.capacity)
    ensures match ShrinkPlan(old(c.View()), maxSize, allocatorMax)
            case None => r.Shrunk? && d == c
            case Some(p) =>
              if p.blocks <= |addresses| then r.Shrunk? && d != c && d.capacity == p.added
              else r.ShrinkOutOfMemory? && d == c
  {
    hide Inv, LiveAt, ValueAt, Traversal, Values, Packed, SameElements, Container.Valid, DList.NodeOk, SList.NodeOk;
    ghost var h := c.View();
    ValidInv(c);
    TrimCapacity(c);
    SameTraversal(h, c.View(), t);
    r, d, u := Shrunk, c, t;
    if c.capacity == c.size || c.size == 0 {
      return;
    }
    var plan := Planner.PlanCapacity(0, c.size, maxSize, c.min, BlockLimit(c.max, allocatorMax));
    Planner.PlanSound(0, c.size, maxSize, c.min, BlockLimit(c.max, allocatorMax));
    if plan.None? || plan.value.added >= c.capacity {
      return;
    }
    var done;
    done, d, u := ShrinkByRebuild(c, plan.value, addresses, garbage, t);
    if !done {
      r := ShrinkOutOfMemory;
    }
  }

  lemma ValidLimits<T>(c: Container<T>)
    requires c.Valid()
    ensures 1 <= c.min <= c.max
  {
  }

  /** A container nobody touched is what it was. */
  twostate lemma Untouched<T>(c: Container<T>)
    requires old(c.Valid()) && unchanged(c.Frame())
    ensures c.Valid() && c.View() == old(c.View())
  {
    hide Inv, DList.NodeOk, SList.NodeOk;
  }

  /** The rebuild: every block first, then every value, into a container of its own. */
  method ShrinkByRebuild<T>(c: Container<T>, plan: Planner.Plan, addresses: seq<nat>, garbage: nat -> nat, ghost t: seq<Loc>)
    returns (done: bool, d: Container<T>, ghost u: seq<Loc>)
    requires c.Valid() && Traversal(c.View(), t) && Distinct(addresses) && NULL !in addresses
    requires Planner.Feasible(plan, c.min) && plan.blockMax <= c.max && plan.blockMax <= SLOT_NPOS && c.size <= plan.added
    ensures c.Valid() && d.Valid() && Traversal(d.View(), u) && Values(d.View(), u) == Values(c.View(), t)
    ensures done <==> plan.blocks <= |addresses|
    ensures done ==> d != c && fresh(d.Frame()) && d.capacity == plan.added && d.min == c.min && d.max == c.max
    ensures !done ==> d == c && u == t
  {
    hide Inv, LiveAt, ValueAt, Traversal, Values, Packed, SameElements, Container.Valid;
    ValidLimits(c);
    done, d, u := false, c, t;
    var rebuilt := new Container<T>(c.min, c.max);
    var reserved, _ := ReserveBlocks(rebuilt, plan, addresses, garbage);
    Untouched(c);
    if reserved {
      FreshPacked(rebuilt.View());
      done, d := true, rebuilt;
      u := AppendMoveTo(c, d, t);
      Untouched(c);
    }
  }

  /** A container with reserved blocks only is packed. */
  lemma FreshPacked<T>(h: Hive<T>)
    requires h.active == [] && h.available == []
    ensures Packed(h)
  {
  }

  // ----- reshape

  /** Releases the reserved block at position `k`. */
  function DropReservedAt<T>(h: Hive<T>, k: nat): Hive<T>
    requires k < |h.reserved| && h.reserved[k] in h.store && h.store[h.reserved[k]].capacity <= h.capacity
  {
    h.(store := h.store - {h.reserved[k]},
       reserved := Without(h.reserved, k),
       capacity := h.capacity - h.store[h.reserved[k]].capacity)
  }

  lemma DropReservedAtLists<T>(h: Hive<T>, k: nat, h': Hive<T>)
    requires ListsOk(h) && AvailableOk(h) && OrderOk(h) && k < |h.reserved|
    requires h' == h.(store := h.store - {h.reserved[k]}, reserved := Without(h.reserved, k), capacity := h'.capacity)
    ensures ListsOk(h') && AvailableOk(h') && OrderOk(h')
  {
    hide HasSpace, Without;
    WithoutDistinct(h.reserved, k);
    assert h.reserved[k] in h.reserved;
  }

  lemma DropReservedAtKeeps<T>(h: Hive<T>, k: nat)
    requires Inv(h) && k < |h.reserved|
    ensures h.reserved[k] in h.store && h.store[h.reserved[k]].capacity <= h.capacity
    ensures Inv(DropReservedAt(h, k)) && SameElements(h, DropReservedAt(h, k))
  {
    hide Without, HasSpace, Contents;
    var id := h.reserved[k];
    assert id in h.reserved;
    ReservedIsEmpty(h, id);
    TotalSplit(h.store, h.reserved, k, false);
    var h' := DropReservedAt(h, k);
    DropReservedAtLists(h, k, h');
    DropReservedAtSums(h, k, h');
    EmptyBlockGone(h, id, h');
    BlocksStay(h, id, h');
    hide SumsOk, ListsOk, OrderOk, AvailableOk, BlocksOk, SameElements;
  }

  lemma DropReservedAtSums<T>(h: Hive<T>, k: nat, h': Hive<T>)
    requires ListsOk(h) && SumsOk(h) && k < |h.reserved| && h.reserved[k] in h.store
    requires h.store[h.reserved[k]].capacity <= h.capacity && h' == DropReservedAt(h, k) && ListsOk(h')
    ensures SumsOk(h')
  {
    hide Without;
    TotalSplit(h.store, h.reserved, k, false);
    WithoutDistinct(h.reserved, k);
    assert h.reserved[k] in h.reserved;
    hide Distinct;
    TotalSame(h.store, h'.store, h.active, true);
    TotalSame(h.store, h'.store, h.active, false);
    TotalSame(h.store, h'.store, h'.reserved, false);
  }

  method ReleaseReservedAfter<T>(c: Container<T>, before: nat, ghost k: nat)
    requires c.Valid() && k < |c.reserved.s| && before == (if k == 0 then NULL else c.reserved.s[k - 1])
    modifies c.Frame()
    ensures c.Valid() && OnlyReserved(old(c.View()), c.View()) && c.endEpoch == old(c.endEpoch)
    ensures c.reserved.s == Without(old(c.reserved.s), k)
    ensures c.store == old(c.store) - {old(c.reserved.s)[k]} && c.capacity <= old(c.capacity)
  {
    hide Inv, LiveAt;
    ghost var h := c.View();
    DropReservedAtKeeps(h, k);
    assert h.reserved[k] in h.reserved;
    ReservedNotActive(h, h.reserved[k]);
    var id := c.reserved.RemoveAfter(before, k);
    c.capacity := c.capacity - c.store[id].capacity;
    c.store := c.store - {id};
    assert c.View() == DropReservedAt(h, k);
  }

  lemma RelimitKeeps<T>(h: Hive<T>, lo: nat, hi: nat)
    requires Inv(h) && 1 <= lo <= hi
    requires forall id | id in h.store :: lo <= h.store[id].capacity <= hi
    ensures Inv(h.(min := lo, max := hi)) && SameElements(h, h.(min := lo, max := hi))
  {
    hide HiveBlock.Valid, HasSpace, Total;
    var h' := h.(min := lo, max := hi);
    forall i ensures BlockOk(h', i) { assert BlockOk(h, i); }
    assert ListsOk(h') && AvailableOk(h') && OrderOk(h') && SumsOk(h');
  }

  /** The first `k` reserved blocks fit, and nothing that fits has been lost since `h0`. */
  ghost predicate Sifted<T>(h0: Hive<T>, h: Hive<T>, k: nat, lo: nat, hi: nat) {
    && k <= |h.reserved|
    && (forall id | id in h.reserved :: id in h.store)
    && (forall i | 0 <= i < k :: h.reserved[i] in h.store && lo <= h.store[h.reserved[i]].capacity <= hi)
    && (forall id | id in h.store :: id in h0.store && h.store[id] == h0.store[id])
    && (forall id | id in h0.reserved && id in h0.store && lo <= h0.store[id].capacity <= hi :: id in h.reserved)
  }

  lemma SiftDrop<T>(h0: Hive<T>, g: Hive<T>, g': Hive<T>, k: nat, lo: nat, hi: nat)
    requires Sifted(h0, g, k, lo, hi) && k < |g.reserved| && Distinct(g.reserved)
    requires g.reserved[k] in g.store && !(lo <= g.store[g.reserved[k]].capacity <= hi)
    requires g'.reserved == Without(g.reserved, k) && g'.store == g.store - {g.reserved[k]}
    ensures Sifted(h0, g', k, lo, hi)
  {
    WithoutDistinct(g.reserved, k);
    forall i: nat | i < k ensures g'.reserved[i] == g.reserved[i] { WithoutAt(g.reserved, k, i); }
  }

  lemma SiftStart<T>(h: Hive<T>, lo: nat, hi: nat)
    requires Inv(h)
    ensures Sifted(h, h, 0, lo, hi)
  {
  }

  lemma SiftKeep<T>(h0: Hive<T>, g: Hive<T>, k: nat, lo: nat, hi: nat)
    requires Sifted(h0, g, k, lo, hi) && k < |g.reserved|
    ensures g.reserved[k] in g.store
    ensures lo <= g.store[g.reserved[k]].capacity <= hi ==> Sifted(h0, g, k + 1, lo, hi)
  {
    assert g.reserved[k] in g.reserved;
  }

  /** Drops exactly the reserved blocks outside the new limits. */
  method DropMisfits<T>(c: Container<T>, lo: nat, hi: nat)
    requires c.Valid()
    modifies c.Frame()
    ensures c.Valid() && OnlyReserved(old(c.View()), c.View()) && c.endEpoch == old(c.endEpoch)
    ensures c.capacity <= old(c.capacity)
    ensures Sifted(old(c.View()), c.View(), |c.reserved.s|, lo, hi)
  {
    hide Inv, LiveAt, OnlyReserved, Sifted, Without, Container.Valid;
    ghost var h := c.View();
    OnlyReservedRefl(h);
    ValidInv(c);
    SiftStart(h, lo, hi);
    var before := NULL;
    ghost var k := 0;
    var id := ReservedAfter(c, before, k);
    while id != NULL
      invariant c.Valid() && OnlyReserved(h, c.View()) && c.endEpoch == old(c.endEpoch)
      invariant k <= |c.reserved.s| && before == (if k == 0 then NULL else c.reserved.s[k - 1])
      invariant id == (if k < |c.reserved.s| then c.reserved.s[k] else NULL) && (id == NULL <==> k == |c.reserved.s|)
      invariant c.capacity <= old(c.capacity) && Sifted(h, c.View(), k, lo, hi)
      decreases |c.reserved.s| - k
    {
      ghost var g := c.View();
      SiftKeep(h, g, k, lo, hi);
      if !(lo <= c.store[id].capacity <= hi) {
        ValidInv(c);
        DistinctReserved(g);
        WithoutDistinct(g.reserved, k);
        if k > 0 { WithoutAt(g.reserved, k, k - 1); }
        ReleaseReservedAfter(c, before, k);
        OnlyReservedTrans(h, g, c.View());
        SiftDrop(h, g, c.View(), k, lo, hi);
      } else {
        before := id;
        k := k + 1;
      }
      id := ReservedAfter(c, before, k);
    }
  }

  /** The reserved block behind `before`, which is at position `k - 1`. */
  method ReservedAfter<T>(c: Container<T>, before: nat, ghost k: nat) returns (id: nat)
    requires c.Valid() && k <= |c.reserved.s| && before == (if k == 0 then NULL else c.reserved.s[k - 1])
    ensures c.Valid()
    ensures id == (if k < |c.reserved.s| then c.reserved.s[k] else NULL) && (id == NULL <==> k == |c.reserved.s|)
  {
    hide Inv;
    id := c.reserved.NodeAfter(before, k);
  }

  lemma DistinctReserved<T>(h: Hive<T>)
    requires Inv(h)
    ensures Distinct(h.reserved)
  {
  }

  /** Looks for an active block outside the limits. */
  method AnyActiveMisfit<T>(c: Container<T>, lo: nat, hi: nat) returns (found: bool)
    requires c.Valid()
    ensures found <==> exists id :: id in c.active.s && id in c.store && !(lo <= c.store[id].capacity <= hi)
  {
    hide Inv;
    ActiveStored(c.View());
    FirstNonNull(c.active);
    var id := c.active.head;
    ghost var k := 0;
    while id != NULL
      invariant k <= |c.active.s| && id == (if k < |c.active.s| then c.active.s[k] else NULL)
      invariant id == NULL <==> k == |c.active.s|
      invariant forall i | 0 <= i < k :: lo <= c.store[c.active.s[i]].capacity <= hi
      decreases |c.active.s| - k
    {
      if !(lo <= c.store[id].capacity <= hi) {
        return true;
      }
      id := c.active.Successor(id, k);
      k := k + 1;
    }
    found := false;
  }

  lemma ActiveStored<T>(h: Hive<T>)
    requires Inv(h)
    ensures forall id | id in h.active :: id in h.store
    ensures forall id | id in h.store :: id in h.active || id in h.reserved
  {
  }

  datatype ReshapeResult = Reshaped | InvalidLimits | ReshapeTooLong | ReshapeOutOfMemory

  /** The branch that keeps every element where it is. */
  method ReshapeInPlace<T>(c: Container<T>, lo: nat, hi: nat)
    requires c.Valid() && 1 <= lo <= hi
    requires forall id | id in c.active.s && id in c.store :: lo <= c.store[id].capacity <= hi
    modifies c.Frame()
    ensures c.Valid() && SameElements(old(c.View()), c.View()) && c.endEpoch == old(c.endEpoch)
    ensures c.min == lo && c.max == hi && c.capacity <= old(c.capacity) && c.active.s == old(c.active.s)
    ensures Sifted(old(c.View()), c.View(), |c.reserved.s|, lo, hi)
  {
    hide Inv, LiveAt, ValueAt, SameElements, DList.NodeOk, SList.NodeOk;
    ghost var h := c.View();
    ActiveStored(h);
    DropMisfits(c, lo, hi);
    ghost var g := c.View();
    ActiveStored(g);
    forall id | id in g.store ensures lo <= g.store[id].capacity <= hi {
      if id in g.reserved { var i :| 0 <= i < |g.reserved| && g.reserved[i] == id; }
    }
    RelimitKeeps(g, lo, hi);
    SetLimits(c, lo, hi);
    SameElementsTrans(h, g, c.View());
  }

  method SetLimits<T>(c: Container<T>, lo: nat, hi: nat)
    requires c.Linked()
    modifies c`min, c`max
    ensures c.Linked() && c.View() == old(c.View()).(min := lo, max := hi)
  {
    c.min, c.max := lo, hi;
  }

  /** Some active block lies outside the new limits, so that its elements have to move. */
  ghost predicate Misfit<T>(h: Hive<T>, lo: nat, hi: nat) {
    exists id :: id in h.active && id in h.store && !(lo <= h.store[id].capacity <= hi)
  }

  lemma MisfitHasElements<T>(h: Hive<T>, lo: nat, hi: nat)
    requires Inv(h) && Misfit(h, lo, hi)
    ensures h.size > 0
  {
    var id :| id in h.active && id in h.store && !(lo <= h.store[id].capacity <= hi);
    hide HiveBlock.Valid, SameElements, HasSpace;
    assert BlockOk(h, id);
    var k :| 0 <= k < |h.active| && h.active[k] == id;
    TotalSplit(h.store, h.active, k, true);
  }

  /** The plan for moving every element into blocks within the new limits. */
  ghost function ReshapePlan<T>(h: Hive<T>, lo: nat, hi: nat, maxSize: nat, allocatorMax: nat)
    : Planner.Option<Planner.Plan>
    requires h.size > 0
  {
    Planner.PlanCapacity(0, h.size, maxSize, lo, BlockLimit(hi, allocatorMax))
  }

  /**
    reshape: afterwards every active and reserved block is within the new limits (part of
    `Valid`), and the element sequence is the same; on an error nothing changed.  Elements
    move exactly when some active block does not fit, into the planned capacity; that fails
    exactly when there is no plan or its blocks cannot be allocated.  Otherwise exactly the
    reserved blocks that do not fit are released.
   */
  method Reshape<T>(c: Container<T>, lo: nat, hi: nat, hardMax: nat, maxSize: nat, allocatorMax: nat,
                    addresses: seq<nat>, garbage: nat -> nat, ghost t: seq<Loc>)
    returns (r: ReshapeResult, d: Container<T>, ghost u: seq<Loc>)
    requires c.Valid() && Traversal(c.View(), t)
    requires Distinct(addresses) && NULL !in addresses
    modifies c.Frame()
    ensures r.InvalidLimits? <==> !(1 <= lo <= hi <= hardMax)
    ensures !r.InvalidLimits? && !Misfit(old(c.View()), lo, hi) ==>
              && r.Reshaped? && d == c && Sifted(old(c.View()), c.View(), |c.reserved.s|, lo, hi)
              && SameElements(old(c.View()), c.View()) && c.endEpoch == old(c.endEpoch)
    ensures !r.InvalidLimits? && Misfit(old(c.View()), lo, hi) ==>
              && old(c.size) > 0
              && match ReshapePlan(old(c.View()), lo, hi, maxSize, allocatorMax)
                 case None => r.ReshapeTooLong?
                 case Some(p) =>
                   if p.blocks <= |addresses| then r.Reshaped? && d != c && fresh(d.Frame()) && d.capacity == p.added
                   else r.ReshapeOutOfMemory?
    ensures r.Reshaped? ==> d.min == lo && d.max == hi
    ensures !r.Reshaped? ==> d == c && c.View() == old(c.View())
    ensures d.Valid() && Traversal(d.View(), u) && Values(d.View(), u) == Values(old(c.View()), t)
    ensures d == c ==> u == t
  {
    hide Inv, LiveAt, ValueAt, Traversal, Values, Packed, SameElements, Container.Valid, Sifted;
    ghost var h := c.View();
    d, u := c, t;
    if !(1 <= lo <= hi <= hardMax) {
      return InvalidLimits, d, u;
    }
    var rebuild := AnyActiveMisfit(c, lo, hi);
    if rebuild {
      r, d, u := ReshapeByRebuild(c, lo, hi, maxSize, allocatorMax, addresses, garbage, t);
    } else {
      ReshapeInPlace(c, lo, hi);
      SameTraversal(h, c.View(), t);
      r := Reshaped;
    }
  }

  /** The branch that moves every element into new blocks. */
  method ReshapeByRebuild<T>(c: Container<T>, lo: nat, hi: nat, maxSize: nat, allocatorMax: nat,
                             addresses: seq<nat>, garbage: nat -> nat, ghost t: seq<Loc>)
    returns (r: ReshapeResult, d: Container<T>, ghost u: seq<Loc>)
    requires c.Valid() && Traversal(c.View(), t) && 1 <= lo <= hi && Misfit(c.View(), lo, hi)
    requires Distinct(addresses) && NULL !in addresses
    ensures c.size > 0 && c.Valid() && d.Valid()
    ensures match ReshapePlan(c.View(), lo, hi, maxSize, allocatorMax)
            case None => r.ReshapeTooLong?
            case Some(p) =>
              if p.blocks <= |addresses| then r.Reshaped? && d != c && fresh(d.Frame()) && d.capacity == p.added
              else r.ReshapeOutOfMemory?
    ensures r.Reshaped? ==> d.min == lo && d.max == hi
    ensures !r.Reshaped? ==> d == c && u == t
    ensures Traversal(d.View(), u) && Values(d.View(), u) == Values(c.View(), t)
  {
    hide Inv, LiveAt, ValueAt, Traversal, Values, Packed, SameElements, Misfit, Container.Valid;
    d, u := c, t;
    ValidInv(c);
    MisfitHasElements(c.View(), lo, hi);
    var rebuilt := new Container<T>(lo, hi);
    var reserved := Reserve(rebuilt, c.size, maxSize, allocatorMax, addresses, garbage);
    Untouched(c);
    if reserved.TooLong? {
      return ReshapeTooLong, d, u;
    }
    if reserved.OutOfMemory? {
      return ReshapeOutOfMemory, d, u;
    }
    FreshPacked(rebuilt.View());
    d := rebuilt;
    u := AppendMoveTo(c, d, t);
    Untouched(c);
    r := Reshaped;
  }
}
