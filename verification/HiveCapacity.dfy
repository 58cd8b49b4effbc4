/**
  Capacity operations on reserved blocks: reserve and trim.  Neither touches an
  active block, an element or end.
 */
module HiveCapacity {
  import opened HiveBlock
  import opened HiveModel
  import opened HiveModelProofs
  import opened HiveTraversal
  import opened HiveElements
  import opened HiveLists
  import opened HiveContainer
  import Planner = HivePlanner

  // ----- Reserved blocks come and go

  function AddReserved<T>(h: Hive<T>, id: nat, b: Block<T>): Hive<T> {
    h.(store := h.store[id := b], reserved := [id] + h.reserved, capacity := h.capacity + b.capacity)
  }

  lemma AddReservedLists<T>(h: Hive<T>, id: nat, b: Block<T>)
    requires ListsOk(h) && AvailableOk(h) && OrderOk(h) && id !in h.store && id != NULL
    ensures ListsOk(AddReserved(h, id, b)) && AvailableOk(AddReserved(h, id, b)) && OrderOk(AddReserved(h, id, b))
  {
    hide HasSpace;
  }

  lemma AddReservedSums<T>(h: Hive<T>, id: nat, b: Block<T>, h': Hive<T>)
    requires ListsOk(h) && SumsOk(h) && ListsOk(h') && id !in h.store && h' == AddReserved(h, id, b)
    ensures SumsOk(h')
  {
    TotalSame(h.store, h'.store, h.active, true);
    TotalSame(h.store, h'.store, h.active, false);
    TotalSame(h.store, h'.store, h.reserved, false);
    TotalConcat(h'.store, [id], h.reserved, false);
  }

  lemma AddReservedKeeps<T>(h: Hive<T>, id: nat, b: Block<T>)
    requires Inv(h) && id !in h.store && id != NULL
    requires HiveBlock.Valid(b) && b.liveCount == 0 && h.min <= b.capacity <= h.max
    ensures Inv(AddReserved(h, id, b)) && SameElements(h, AddReserved(h, id, b))
  {
    hide HiveBlock.Valid, HasSpace, Contents, Total;
    var h' := AddReserved(h, id, b);
    AddReservedLists(h, id, b);
    AddReservedSums(h, id, b, h');
    forall i ensures BlockOk(h', i) { assert BlockOk(h, i); }
    BlockFacts(b);
  }

  lemma DropReservedSame<T>(h: Hive<T>)
    requires Inv(h) && h.reserved != []
    ensures h.reserved[0] in h.store && h.store[h.reserved[0]].capacity <= h.capacity
    ensures Inv(DropReserved(h)) && SameElements(h, DropReserved(h))
  {
    hide Inv, LiveAt, ValueAt;
    DropReservedKeeps(h);
  }

  lemma SameElementsTrans<T>(a: Hive<T>, b: Hive<T>, c: Hive<T>)
    requires SameElements(a, b) && SameElements(b, c)
    ensures SameElements(a, c)
  {
    hide LiveAt, ValueAt;
  }

  lemma SameElementsRefl<T>(h: Hive<T>)
    ensures SameElements(h, h)
  {
  }

  /** Nothing but reserved storage changed between the two states. */
  ghost predicate OnlyReserved<T>(h: Hive<T>, h': Hive<T>) {
    && SameElements(h, h') && h'.active == h.active && h'.available == h.available && h'.size == h.size
    && h'.min == h.min && h'.max == h.max
    && (forall id | id in h.active && id in h.store :: id in h'.store && h'.store[id] == h.store[id])
  }

  lemma OnlyReservedRefl<T>(h: Hive<T>)
    ensures OnlyReserved(h, h)
  {
    SameElementsRefl(h);
  }

  lemma OnlyReservedTrans<T>(a: Hive<T>, b: Hive<T>, c: Hive<T>)
    requires OnlyReserved(a, b) && OnlyReserved(b, c)
    ensures OnlyReserved(a, c)
  {
    hide SameElements;
    SameElementsTrans(a, b, c);
  }

  lemma ReservedNotActive<T>(h: Hive<T>, id: nat)
    requires Inv(h) && id in h.reserved
    ensures id !in h.active
  {
  }

  /** Slots in active blocks. */
  ghost function ActiveCapacity<T>(h: Hive<T>): nat
    requires Inv(h)
  {
    Total(h.store, h.active, false)
  }

  /** What reserved blocks come and go does not change the active part of the capacity. */
  lemma ActiveCapacityKept<T>(h: Hive<T>, h': Hive<T>)
    requires Inv(h) && Inv(h') && OnlyReserved(h, h')
    ensures ActiveCapacity(h') == ActiveCapacity(h) <= h.capacity
    ensures h'.reserved == [] ==> h'.capacity == ActiveCapacity(h)
  {
    hide BlocksOk, SameElements, AvailableOk, OrderOk;
    TotalSame(h.store, h'.store, h.active, false);
  }

  method ReleaseReserved<T>(c: Container<T>)
    requires c.Valid() && c.reserved.s != []
    modifies c.Frame()
    ensures c.Valid() && OnlyReserved(old(c.View()), c.View()) && c.endEpoch == old(c.endEpoch)
    ensures c.reserved.s == old(c.reserved.s)[1..]
    ensures old(c.reserved.s)[0] in old(c.store)
    ensures c.capacity + old(c.store)[old(c.reserved.s)[0]].capacity == old(c.capacity)
    ensures c.store == old(c.store) - {old(c.reserved.s)[0]}
  {
    hide Inv, LiveAt;
    DropReservedSame(c.View());
    ghost var h := c.View();
    assert h.reserved[0] in h.reserved;
    var id := c.reserved.PopFront();
    c.capacity := c.capacity - c.store[id].capacity;
    c.store := c.store - {id};
    assert c.View() == DropReserved(h);
    ReservedNotActive(h, id);
  }

  method LinkReserved<T>(c: Container<T>, id: nat, b: Block<T>)
    requires c.Valid() && id != NULL && id !in c.store
    requires HiveBlock.Valid(b) && b.liveCount == 0 && c.min <= b.capacity <= c.max
    modifies c.Frame()
    ensures c.Valid() && OnlyReserved(old(c.View()), c.View()) && c.endEpoch == old(c.endEpoch)
    ensures c.View() == AddReserved(old(c.View()), id, b)
  {
    hide Inv, LiveAt, HiveBlock.Valid;
    ghost var h := c.View();
    AddReservedKeeps(h, id, b);
    AllocatedUnlisted(h, id);
    c.store := c.store[id := b];
    c.reserved.PushFront(id);
    c.capacity := c.capacity + b.capacity;
  }

  // ----- Trim

  /** Drops every reserved block. */
  method TrimCapacity<T>(c: Container<T>)
    requires c.Valid()
    modifies c.Frame()
    ensures c.Valid() && OnlyReserved(old(c.View()), c.View()) && c.endEpoch == old(c.endEpoch)
    ensures c.reserved.s == [] && c.capacity == ActiveCapacity(old(c.View())) <= old(c.capacity)
  {
    hide Inv, LiveAt, OnlyReserved;
    OnlyReservedRefl(c.View());
    ReservedNonNull(c.reserved);
    while c.reserved.head != NULL
      invariant c.Valid() && OnlyReserved(old(c.View()), c.View()) && c.endEpoch == old(c.endEpoch)
      invariant c.capacity <= old(c.capacity)
      invariant c.reserved.head == NULL <==> c.reserved.s == []
      decreases |c.reserved.s|
    {
      ghost var g := c.View();
      ReleaseReserved(c);
      OnlyReservedTrans(old(c.View()), g, c.View());
      ReservedNonNull(c.reserved);
    }
    ActiveCapacityKept(old(c.View()), c.View());
  }

  /** Drops reserved blocks from the front while at least `n` slots remain. */
  method TrimCapacityTo<T>(c: Container<T>, n: nat)
    requires c.Valid()
    modifies c.Frame()
    ensures c.Valid() && OnlyReserved(old(c.View()), c.View()) && c.endEpoch == old(c.endEpoch)
    ensures Planner.Min(n, old(c.capacity)) <= c.capacity <= old(c.capacity)
    ensures c.reserved.s != [] && n < c.capacity ==>
              c.reserved.s[0] in c.store && c.capacity < n + c.store[c.reserved.s[0]].capacity
    ensures |c.reserved.s| <= |old(c.reserved.s)|
    ensures c.reserved.s == old(c.reserved.s)[|old(c.reserved.s)| - |c.reserved.s|..]
    ensures n >= old(c.capacity) ==> c.reserved.s == old(c.reserved.s)
  {
    hide Inv, LiveAt, OnlyReserved;
    OnlyReservedRefl(c.View());
    ReservedNonNull(c.reserved);
    ReservedListed(c.View());
    if n >= c.capacity {
      return;
    }
    while c.reserved.head != NULL && c.capacity >= n + c.store[c.reserved.head].capacity
      invariant c.Valid() && OnlyReserved(old(c.View()), c.View()) && c.endEpoch == old(c.endEpoch)
      invariant n <= c.capacity <= old(c.capacity)
      invariant c.reserved.head == NULL <==> c.reserved.s == []
      invariant c.reserved.s != [] ==> c.reserved.s[0] in c.store
      invariant |c.reserved.s| <= |old(c.reserved.s)|
      invariant c.reserved.s == old(c.reserved.s)[|old(c.reserved.s)| - |c.reserved.s|..]
      decreases |c.reserved.s|
    {
      ghost var g := c.View();
      ReleaseReserved(c);
      OnlyReservedTrans(old(c.View()), g, c.View());
      ReservedNonNull(c.reserved);
      ReservedListed(c.View());
    }
  }

  lemma ReservedListed<T>(h: Hive<T>)
    requires Inv(h)
    ensures h.reserved != [] ==> h.reserved[0] in h.store
  {
    assert h.reserved != [] ==> h.reserved[0] in h.reserved;
  }

  // ----- Reserve

  datatype ReserveResult = Reserved | TooLong | OutOfMemory

  /** Addresses the allocator will hand out, one per request, until it runs dry. */
  ghost predicate Usable<T>(store: map<nat, Block<T>>, addresses: seq<nat>) {
    && Distinct(addresses)
    && forall a | a in addresses :: a != NULL && a !in store
  }

  /** `s` read from its end. */
  function Backwards(s: seq<nat>): seq<nat> {
    if s == [] then [] else [s[|s| - 1]] + Backwards(s[..|s| - 1])
  }

  lemma BackwardsNext(s: seq<nat>, i: nat)
    requires i < |s|
    ensures Backwards(s[..i + 1]) == [s[i]] + Backwards(s[..i])
  {
    assert s[..i + 1][..i] == s[..i];
  }

  /** The first blocks of the allocator have the capacities `caps`, and lie latest first before `rest`. */
  ghost predicate NewlyLinked<T>(h: Hive<T>, addresses: seq<nat>, caps: seq<nat>, rest: seq<nat>) {
    && |caps| <= |addresses|
    && (forall i | 0 <= i < |caps| :: addresses[i] in h.store && h.store[addresses[i]].capacity == caps[i])
    && h.reserved == Backwards(addresses[..|caps|]) + rest
  }

  lemma LinkedNext<T>(h: Hive<T>, h': Hive<T>, addresses: seq<nat>, caps: seq<nat>, rest: seq<nat>, b: Block<T>)
    requires NewlyLinked(h, addresses, caps, rest) && Distinct(addresses) && |caps| < |addresses|
    requires h'.store == h.store[addresses[|caps|] := b] && h'.reserved == [addresses[|caps|]] + h.reserved
    ensures NewlyLinked(h', addresses, caps + [b.capacity], rest)
  {
    BackwardsNext(addresses, |caps|);
  }

  /**
    Allocates the blocks of a plan, the largest first; an allocation failure keeps the ones
    already linked.  `caps` are the capacities allocated.
   */
  method ReserveBlocks<T>(c: Container<T>, plan: Planner.Plan, addresses: seq<nat>, garbage: nat -> nat)
    returns (done: bool, ghost caps: seq<nat>)
    requires c.Valid() && Usable(c.store, addresses) && Planner.Feasible(plan, c.min)
    requires plan.blockMax <= c.max && plan.blockMax <= SLOT_NPOS
    modifies c.Frame()
    ensures c.Valid() && OnlyReserved(old(c.View()), c.View()) && c.endEpoch == old(c.endEpoch)
    ensures done <==> plan.blocks <= |addresses|
    ensures done ==> c.capacity == old(c.capacity) + plan.added
    ensures old(c.capacity) <= c.capacity <= old(c.capacity) + plan.added
    ensures |c.reserved.s| == |old(c.reserved.s)| + Planner.Min(plan.blocks, |addresses|)
    ensures |caps| == Planner.Min(plan.blocks, |addresses|) && Planner.LargestFirst(caps, c.min, plan.blockMax)
    ensures NewlyLinked(c.View(), addresses, caps, old(c.reserved.s))
    ensures c.min == old(c.min) && c.max == old(c.max)
  {
    hide Inv, LiveAt, OnlyReserved, HiveBlock.Valid, FreshBlock, NewlyLinked, Planner.LargestFirst, Planner.OnCourse;
    caps := [];
    NothingLinked(c.View(), addresses);
    NothingAllocated(plan, c.min);
    OnlyReservedRefl(c.View());
    LimitsFacts(c.View());
    var left, i := plan, 0;
    while left.blocks != 0
      invariant c.Valid() && OnlyReserved(old(c.View()), c.View()) && c.endEpoch == old(c.endEpoch)
      invariant i + left.blocks == plan.blocks && i <= |addresses| && left.blockMax == plan.blockMax
      invariant Planner.Feasible(left, c.min) && c.capacity + left.added == old(c.capacity) + plan.added
      invariant forall j | i <= j < |addresses| :: addresses[j] !in c.store
      invariant |c.reserved.s| == |old(c.reserved.s)| + i && c.capacity >= old(c.capacity)
      invariant c.min == old(c.min) && c.max == old(c.max)
      invariant |caps| == i && NewlyLinked(c.View(), addresses, caps, old(c.reserved.s))
      invariant Planner.LargestFirst(caps, c.min, plan.blockMax) && Planner.OnCourse(caps, left, c.min)
      decreases left.blocks
    {
      Planner.NextKeepsFeasible(left, c.min);
      if i == |addresses| {
        return false, caps;
      }
      Planner.StaysOnCourse(caps, left, c.min);
      var n := Planner.NextCapacity(left, c.min);
      ghost var g := c.View();
      FreshBlockValid<T>(n, garbage);
      FreshCapacity<T>(n, garbage);
      assert addresses[i] in addresses;
      LinkReserved(c, addresses[i], FreshBlock(n, garbage));
      OnlyReservedTrans(old(c.View()), g, c.View());
      LinkedNext(g, c.View(), addresses, caps, old(c.reserved.s), FreshBlock(n, garbage));
      caps := caps + [n];
      left := Planner.Plan(left.blocks - 1, left.added - n, left.blockMax);
      i := i + 1;
    }
    done := true;
  }

  lemma NothingLinked<T>(h: Hive<T>, addresses: seq<nat>)
    ensures NewlyLinked(h, addresses, [], h.reserved)
  {
  }

  lemma NothingAllocated(plan: Planner.Plan, min: nat)
    ensures Planner.LargestFirst([], min, plan.blockMax) && Planner.OnCourse([], plan, min)
  {
  }

  lemma FreshCapacity<T>(n: nat, garbage: nat -> nat)
    ensures FreshBlock<T>(n, garbage).capacity == n
  {
  }

  /** allocation_block_max. */
  function BlockLimit(max: nat, allocatorMax: nat): nat {
    Planner.Min(max, Planner.Min(SLOT_NPOS, allocatorMax))
  }

  /** reserve: room for `n` elements, or an error; elements and end stay valid either way. */
  method Reserve<T>(c: Container<T>, n: nat, maxSize: nat, allocatorMax: nat, addresses: seq<nat>, garbage: nat -> nat)
    returns (r: ReserveResult)
    requires c.Valid() && Usable(c.store, addresses)
    modifies c.Frame()
    ensures c.Valid() && OnlyReserved(old(c.View()), c.View()) && c.endEpoch == old(c.endEpoch)
    ensures n <= old(c.capacity) ==> r.Reserved? && c.View() == old(c.View())
    ensures n > old(c.capacity) ==>
              match Planner.PlanCapacity(old(c.capacity), n, maxSize, c.min, BlockLimit(c.max, allocatorMax))
              case None => r.TooLong? && c.View() == old(c.View())
              case Some(p) =>
                && n <= old(c.capacity) + p.added <= maxSize
                && (if p.blocks <= |addresses| then r.Reserved? && c.capacity == old(c.capacity) + p.added
                    else r.OutOfMemory? && |c.reserved.s| == |old(c.reserved.s)| + |addresses|)
    ensures c.capacity >= old(c.capacity)
  {
    hide Inv, LiveAt, OnlyReserved;
    OnlyReservedRefl(c.View());
    if n <= c.capacity {
      return Reserved;
    }
    var blockMax := BlockLimit(c.max, allocatorMax);
    var plan := Planner.PlanCapacity(c.capacity, n, maxSize, c.min, blockMax);
    Planner.PlanSound(c.capacity, n, maxSize, c.min, blockMax);
    if plan.None? {
      return TooLong;
    }
    var done, _ := ReserveBlocks(c, plan.value, addresses, garbage);
    r := if done then Reserved else OutOfMemory;
  }
}
