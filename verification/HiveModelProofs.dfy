/**
  What the container operations keep: the list and counter invariant, and the
  refinement to a finite map from locations to values with a traversal order.
 */
module HiveModelProofs {
  import opened HiveBlock
  import opened HiveModel
  import Proofs = HiveBlockProofs

  // ----- Sums

  lemma {:induction false} TotalSame<T>(s: map<nat, Block<T>>, s': map<nat, Block<T>>, ids: seq<nat>, live: bool)
    requires forall id | id in ids :: id in s && id in s' && Weight(s[id], live) == Weight(s'[id], live)
    ensures Total(s, ids, live) == Total(s', ids, live)
  {
    if ids != [] {
      assert ids[0] in ids && forall id | id in ids[1..] :: id in ids;
      TotalSame(s, s', ids[1..], live);
    }
  }

  lemma {:induction false} TotalConcat<T>(s: map<nat, Block<T>>, a: seq<nat>, c: seq<nat>, live: bool)
    requires forall id | id in a + c :: id in s
    ensures Total(s, a + c, live) == Total(s, a, live) + Total(s, c, live)
  {
    if a == [] {
      assert a + c == c;
    } else {
      assert (a + c)[1..] == a[1..] + c && (a + c)[0] == a[0];
      assert forall id | id in a[1..] + c :: id in a + c;
      TotalConcat(s, a[1..], c, live);
    }
  }

  lemma TotalSplit<T>(s: map<nat, Block<T>>, ids: seq<nat>, p: nat, live: bool)
    requires p < |ids| && forall id | id in ids :: id in s
    ensures forall id | id in Without(ids, p) :: id in s
    ensures Total(s, ids, live) == Total(s, Without(ids, p), live) + Weight(s[ids[p]], live)
  {
    assert ids == ids[..p] + ([ids[p]] + ids[p + 1..]);
    TotalConcat(s, ids[..p], [ids[p]] + ids[p + 1..], live);
    TotalConcat(s, ids[..p], ids[p + 1..], live);
    assert ([ids[p]] + ids[p + 1..])[1..] == ids[p + 1..];
  }

  /** Replacing one block of a duplicate-free list. */
  lemma TotalUpdate<T>(s: map<nat, Block<T>>, ids: seq<nat>, x: nat, b: Block<T>, live: bool)
    requires Distinct(ids) && x in ids && forall id | id in ids :: id in s
    ensures Total(s[x := b], ids, live) + Weight(s[x], live) == Total(s, ids, live) + Weight(b, live)
  {
    var p := Position(ids, x);
    TotalSplit(s, ids, p, live);
    TotalSplit(s[x := b], ids, p, live);
    assert x !in Without(ids, p);
    TotalSame(s, s[x := b], Without(ids, p), live);
  }

  // ----- One element added or removed

  ghost predicate SameElsewhere<T>(h: Hive<T>, h': Hive<T>, l: Loc) {
    forall m: Loc | m != l ::
      && (LiveAt(h, m) <==> LiveAt(h', m))
      && (LiveAt(h, m) && LiveAt(h', m) ==> ValueAt(h, m) == ValueAt(h', m))
  }

  ghost predicate AddedAt<T>(h: Hive<T>, h': Hive<T>, l: Loc, v: T) {
    && !LiveAt(h, l) && LiveAt(h', l) && ValueAt(h', l) == v
    && SameElsewhere(h, h', l)
    && (forall id | id in h.active :: id in h.order && id in h'.order && h'.order[id] == h.order[id])
  }

  ghost predicate RemovedAt<T>(h: Hive<T>, h': Hive<T>, l: Loc) {
    && LiveAt(h, l) && !LiveAt(h', l)
    && SameElsewhere(h, h', l)
    && h'.order == h.order
  }

  lemma BlockFacts<T>(b: Block<T>)
    requires Valid(b)
    ensures Sized(b) && b.liveCount == |Contents(b)|
    ensures forall i: nat :: i in Contents(b) <==> IsLive(b, i)
    ensures b.liveCount == 0 <==> Contents(b) == map[]
  {
  }

  /** Replacing the contents of block `id` changes the elements there and nowhere else. */
  lemma StoreAdd<T>(h: Hive<T>, h': Hive<T>, id: nat, b: Block<T>, i: nat, v: T)
    requires h'.store == h.store[id := b]
    requires id in h.store ==> i !in Contents(h.store[id]) && Contents(b) == Contents(h.store[id])[i := v]
    requires id !in h.store ==> Contents(b) == map[i := v]
    ensures !LiveAt(h, Loc(id, i)) && LiveAt(h', Loc(id, i)) && ValueAt(h', Loc(id, i)) == v
    ensures SameElsewhere(h, h', Loc(id, i))
  {
    hide Contents;
  }

  lemma StoreRemove<T>(h: Hive<T>, h': Hive<T>, id: nat, b: Block<T>, i: nat)
    requires id in h.store && h'.store == h.store[id := b]
    requires i in Contents(h.store[id]) && Contents(b) == Contents(h.store[id]) - {i}
    ensures LiveAt(h, Loc(id, i)) && !LiveAt(h', Loc(id, i))
    ensures SameElsewhere(h, h', Loc(id, i))
  {
    hide Contents;
  }

  /** Replacing an active block by one of the same capacity. */
  lemma ReplaceSums<T>(h: Hive<T>, h': Hive<T>, id: nat, b: Block<T>)
    requires ListsOk(h) && SumsOk(h) && ListsOk(h') && id in h.active
    requires h'.store == h.store[id := b] && h'.active == h.active && h'.reserved == h.reserved
    requires b.capacity == h.store[id].capacity && h'.capacity == h.capacity
    requires h'.size + h.store[id].liveCount == h.size + b.liveCount
    ensures SumsOk(h')
  {
    TotalUpdate(h.store, h.active, id, b, true);
    TotalUpdate(h.store, h.active, id, b, false);
    TotalSame(h.store, h'.store, h.reserved, false);
  }

  // ----- Emplace into an available block

  lemma AvailableReady<T>(h: Hive<T>)
    requires Inv(h) && h.available != []
    ensures var id := h.available[0];
            && id in h.store && id in h.active && Valid(h.store[id]) && HasSpace(h.store[id])
            && Sized(h.store[id]) && EmplaceReadable(h.store[id])
  {
    var id := h.available[0];
    assert id in h.available && BlockOk(h, id);
    BlockFacts(h.store[id]);
    var fl :| BlockInv(h.store[id], fl);
    ReadableEmplace(h.store[id], fl);
  }

  lemma AvailableShift(available: seq<nat>)
    requires available != [] && Distinct(available)
    ensures Distinct(available[1..]) && available[0] !in available[1..]
    ensures forall id :: id in available <==> id == available[0] || id in available[1..]
  {
  }

  lemma GrownLists<T>(h: Hive<T>, id: nat, b: Block<T>, h': Hive<T>)
    requires ListsOk(h) && AvailableOk(h) && OrderOk(h)
    requires h.available != [] && id == h.available[0] && h' == Grown(h, id, b)
    ensures ListsOk(h') && AvailableOk(h') && OrderOk(h') && id in h.active
  {
    hide HasSpace;
    assert id in h.available;
    AvailableShift(h.available);
  }

  lemma BlocksReplaced<T>(h: Hive<T>, id: nat, b: Block<T>, h': Hive<T>)
    requires BlocksOk(h) && id in h.store && id in h.active
    requires Valid(b) && b.capacity == h.store[id].capacity && b.liveCount > 0
    requires h' == h.(store := h.store[id := b], available := h'.available, size := h'.size)
    ensures BlocksOk(h')
  {
    hide Valid;
    assert BlockOk(h, id);
    forall i ensures BlockOk(h', i) { assert BlockOk(h, i); }
  }

  /** The list and counter half: block `id` grew by one element, `b` being its new value. */
  lemma GrowKeeps<T>(h: Hive<T>, id: nat, b: Block<T>, h': Hive<T>)
    requires Inv(h) && h.available != [] && id == h.available[0]
    requires id in h.store && Valid(b) && b.capacity == h.store[id].capacity
    requires b.liveCount == h.store[id].liveCount + 1
    requires h' == Grown(h, id, b)
    ensures Inv(h')
  {
    hide Valid, HasSpace;
    GrownLists(h, id, b, h');
    BlocksReplaced(h, id, b, h');
    ReplaceSums(h, h', id, b);
  }

  lemma EmplaceAvailableKeeps<T>(h: Hive<T>, v: T)
    requires Inv(h) && h.available != []
    ensures var id := h.available[0];
            && id in h.store && Sized(h.store[id]) && HasSpace(h.store[id]) && EmplaceReadable(h.store[id])
            && var h' := EmplaceAvailable(h, v);
            && Inv(h') && AddedAt(h, h', Loc(id, EmplaceIndex(h.store[id])), v)
            && Sized(EmplaceCommit(h.store[id], v))
  {
    hide BlockInv, EmplaceCommit;
    AvailableReady(h);
    var id := h.available[0];
    Proofs.EmplaceKeeps(h.store[id], v);
    var b := EmplaceCommit(h.store[id], v);
    BlockFacts(h.store[id]);
    BlockFacts(b);
    GrowKeeps(h, id, b, EmplaceAvailable(h, v));
    StoreAdd(h, EmplaceAvailable(h, v), id, b, EmplaceIndex(h.store[id]), v);
  }

  // ----- A block joins or leaves

  lemma DropReservedLists<T>(h: Hive<T>, h': Hive<T>)
    requires ListsOk(h) && AvailableOk(h) && OrderOk(h) && h.reserved != []
    requires h' == h.(store := h.store - {h.reserved[0]}, reserved := h.reserved[1..], capacity := h'.capacity)
    ensures ListsOk(h') && AvailableOk(h') && OrderOk(h')
  {
    hide HasSpace;
    AvailableShift(h.reserved);
    assert h.reserved[0] in h.reserved;
  }

  lemma ReservedIsEmpty<T>(h: Hive<T>, id: nat)
    requires Inv(h) && id in h.reserved
    ensures id in h.store && Contents(h.store[id]) == map[]
  {
    hide Valid, Contents, HasSpace, Total, Distinct;
    assert BlockOk(h, id);
    BlockFacts(h.store[id]);
  }

  /** An empty block leaves the storage. */
  lemma EmptyBlockGone<T>(h: Hive<T>, id: nat, h': Hive<T>)
    requires id in h.store && Contents(h.store[id]) == map[] && h'.store == h.store - {id} && h'.order == h.order
    ensures SameElements(h, h')
  {
    hide Contents;
  }

  lemma BlocksStay<T>(h: Hive<T>, id: nat, h': Hive<T>)
    requires BlocksOk(h) && h'.store == h.store - {id} && h'.active == h.active && h'.min == h.min && h'.max == h.max
    ensures BlocksOk(h')
  {
    hide Valid;
    forall i ensures BlockOk(h', i) { assert BlockOk(h, i); }
  }

  lemma DropReservedKeeps<T>(h: Hive<T>)
    requires Inv(h) && h.reserved != []
    ensures h.reserved[0] in h.store && h.store[h.reserved[0]].capacity <= h.capacity
    ensures Inv(DropReserved(h))
    ensures forall l: Loc :: LiveAt(DropReserved(h), l) <==> LiveAt(h, l)
    ensures forall l: Loc :: LiveAt(h, l) ==> ValueAt(DropReserved(h), l) == ValueAt(h, l)
  {
    var id := h.reserved[0];
    ReservedIsEmpty(h, id);
    var h' := DropReserved(h);
    DropReservedLists(h, h');
    EmptyBlockGone(h, id, h');
    BlocksStay(h, id, h');
    hide BlocksOk, HasSpace, Contents;
    TotalSame(h.store, h'.store, h.active, true);
    TotalSame(h.store, h'.store, h.active, false);
    TotalSame(h.store, h'.store, h'.reserved, false);
  }

  lemma ActivateLists<T>(h: Hive<T>, id: nat, b: Block<T>, h': Hive<T>)
    requires ListsOk(h) && AvailableOk(h) && OrderOk(h) && id !in h.store && id != NULL
    requires b.freeHead == NPOS && b.highWater <= b.capacity
    requires h' == Activate(h, id, b).(capacity := h'.capacity)
    ensures ListsOk(h') && AvailableOk(h') && OrderOk(h')
  {
    forall i ensures i in h'.active <==> i in h.active || i == id {}
    forall i ensures i in h'.available <==> i in h.available || (i == id && HasSpace(b)) {}
  }

  lemma ActivateSums<T>(h: Hive<T>, id: nat, b: Block<T>, h': Hive<T>)
    requires ListsOk(h) && SumsOk(h) && ListsOk(h') && id !in h.store && b.liveCount == 1
    requires h' == Activate(h.(capacity := h.capacity + b.capacity), id, b)
    ensures SumsOk(h')
  {
    TotalSame(h.store, h'.store, h.active, true);
    TotalSame(h.store, h'.store, h.active, false);
    TotalSame(h.store, h'.store, h.reserved, false);
    TotalConcat(h'.store, h.active, [id], true);
    TotalConcat(h'.store, h.active, [id], false);
  }

  lemma ActivateKeeps<T>(h: Hive<T>, id: nat, b: Block<T>, h': Hive<T>)
    requires Inv(h) && id !in h.store && id != NULL
    requires Valid(b) && b.liveCount == 1 && b.freeHead == NPOS && b.highWater <= b.capacity
    requires h.min <= b.capacity <= h.max
    requires h' == Activate(h.(capacity := h.capacity + b.capacity), id, b)
    ensures Inv(h')
  {
    hide Valid, HasSpace, Total;
    ActivateLists(h, id, b, h');
    ActivateSums(h, id, b, h');
    forall i ensures BlockOk(h', i) { assert BlockOk(h, i); }
  }

  /** The first element of a vacant block is an ordinary append. */
  lemma FirstElementValid<T>(b: Block<T>, v: T)
    requires Valid(b) && b.liveCount == 0
    ensures 0 < |b.slots| && 0 < |b.skip|
    ensures var b' := FirstElement(b, v);
            && Valid(b') && Contents(b') == map[0 := v] && b'.liveCount == 1
            && b'.freeHead == NPOS && b'.capacity == b.capacity && b'.highWater <= b.capacity
  {
    Proofs.EmptyIsPristine(b);
    var fl :| BlockInv(b, fl);
    Proofs.AppendShape(b, fl, v);
    Proofs.AppendKeeps(b, fl, v, EmplaceCommit(b, v));
    assert EmplaceCommit(b, v) == FirstElement(b, v);
    assert Contents(b) == map[];
  }

  lemma EmplaceAllocatedKeeps<T>(h: Hive<T>, id: nat, b: Block<T>, v: T)
    requires Inv(h) && id !in h.store && id != NULL
    requires Valid(b) && b.liveCount == 0 && h.min <= b.capacity <= h.max
    ensures 0 < |b.slots| && 0 < |b.skip|
    ensures var h' := EmplaceAllocated(h, id, b, v);
            && Inv(h') && AddedAt(h, h', Loc(id, 0), v)
  {
    hide Valid, Contents, HasSpace, Total;
    FirstElementValid(b, v);
    var h' := EmplaceAllocated(h, id, b, v);
    ActivateKeeps(h, id, FirstElement(b, v), h');
    StoreAdd(h, h', id, FirstElement(b, v), 0, v);
  }

  /** Reusing a reserved block is dropping it and allocating the same block again. */
  lemma EmplaceReservedIsReallocation<T>(h: Hive<T>, id: nat, v: T)
    requires h.reserved != [] && id == h.reserved[0] && id in h.store && h.store[id].capacity <= h.capacity
    requires 0 < |h.store[id].slots| && 0 < |h.store[id].skip|
    ensures EmplaceReserved(h, v) == EmplaceAllocated(DropReserved(h), id, h.store[id], v)
  {
    var b := FirstElement(h.store[id], v);
    assert (h.store - {id})[id := b] == h.store[id := b];
  }

  lemma EmplaceReservedKeeps<T>(h: Hive<T>, v: T)
    requires Inv(h) && h.reserved != []
    ensures var id := h.reserved[0];
            && id in h.store && 0 < |h.store[id].slots| && 0 < |h.store[id].skip|
            && var h' := EmplaceReserved(h, v);
            && Inv(h') && AddedAt(h, h', Loc(id, 0), v)
  {
    hide Valid, Contents, HasSpace, Total, FirstElement, Activate;
    var id := h.reserved[0];
    DropReservedKeeps(h);
    assert id in h.reserved && BlockOk(h, id);
    var g := DropReserved(h);
    assert id !in g.store;
    EmplaceAllocatedKeeps(g, id, h.store[id], v);
    EmplaceReservedIsReallocation(h, id, v);
    assert forall i | i in h.active :: i in g.active;
  }

  // ----- Erase

  /** Element `q` of `s` without position `p` is this element of `s`. */
  lemma WithoutAt<X>(s: seq<X>, p: nat, q: nat)
    requires p < |s| && q < |s| - 1
    ensures |Without(s, p)| == |s| - 1
    ensures Without(s, p)[q] == s[if q < p then q else q + 1]
  {
  }

  lemma WithoutMembers(s: seq<nat>, p: nat, y: nat)
    requires Distinct(s) && p < |s|
    ensures y in Without(s, p) <==> y in s && y != s[p]
  {
    var w := Without(s, p);
    if y in w {
      var q: nat :| q < |w| && w[q] == y;
      WithoutAt(s, p, q);
    }
    if y in s && y != s[p] {
      var q: nat :| q < |s| && s[q] == y;
      WithoutAt(s, p, if q < p then q else q - 1);
    }
  }

  lemma WithoutDistinct(s: seq<nat>, p: nat)
    requires Distinct(s) && p < |s|
    ensures |Without(s, p)| == |s| - 1 && Distinct(Without(s, p))
    ensures forall y :: y in Without(s, p) <==> y in s && y != s[p]
  {
    var w := Without(s, p);
    assert |w| == |s| - 1;
    hide Without;
    forall y: nat ensures y in w <==> y in s && y != s[p] { WithoutMembers(s, p, y); }
    forall q, r | 0 <= q < r < |w| ensures w[q] != w[r] {
      WithoutAt(s, p, q);
      WithoutAt(s, p, r);
    }
  }

  lemma DropRemoves(s: seq<nat>, x: nat)
    requires Distinct(s)
    ensures Distinct(Drop(s, x))
    ensures forall y :: y in Drop(s, x) <==> y in s && y != x
  {
    if x in s { WithoutDistinct(s, Position(s, x)); }
  }

  lemma DropKeepsOrder<T>(h: Hive<T>, id: nat)
    requires ListsOk(h) && OrderOk(h) && id in h.active
    ensures var a := Drop(h.active, id);
            forall p, q | 0 <= p < q < |a| ::
              a[p] in h.order && a[q] in h.order && h.order[a[p]] < h.order[a[q]]
  {
    var k := Position(h.active, id);
    var a := Drop(h.active, id);
    assert a == Without(h.active, k) && |a| == |h.active| - 1;
    hide Drop, Without, Distinct, Position;
    forall p, q | 0 <= p < q < |a|
      ensures a[p] in h.order && a[q] in h.order && h.order[a[p]] < h.order[a[q]]
    {
      WithoutAt(h.active, k, p);
      WithoutAt(h.active, k, q);
      assert a[p] in h.active && a[q] in h.active;
    }
  }

  lemma ShrunkLists<T>(h: Hive<T>, id: nat, b: Block<T>, h': Hive<T>)
    requires ListsOk(h) && AvailableOk(h) && OrderOk(h) && id in h.active
    requires h.size > 0 && h' == Shrunk(h, id, b) && HasSpace(b)
    ensures ListsOk(h') && AvailableOk(h') && OrderOk(h')
  {
    hide HasSpace;
  }

  lemma RetiredLists<T>(h: Hive<T>, id: nat, b: Block<T>, h': Hive<T>)
    requires ListsOk(h) && AvailableOk(h) && OrderOk(h) && id in h.active
    requires h.size > 0 && h' == Retired(h, id, b)
    ensures ListsOk(h') && AvailableOk(h') && OrderOk(h')
  {
    hide HasSpace, Drop;
    DropRemoves(h.active, id);
    DropRemoves(h.available, id);
    DropKeepsOrder(h, id);
  }

  lemma RetiredSums<T>(h: Hive<T>, id: nat, b: Block<T>, h': Hive<T>)
    requires ListsOk(h) && SumsOk(h) && ListsOk(h') && id in h.active
    requires b.capacity == h.store[id].capacity && h.store[id].liveCount == 1
    requires h.size > 0 && h' == Retired(h, id, b)
    ensures SumsOk(h')
  {
    var p := Position(h.active, id);
    TotalSplit(h.store, h.active, p, true);
    TotalSplit(h.store, h.active, p, false);
    assert id !in h'.active by { DropRemoves(h.active, id); }
    TotalSame(h.store, h'.store, h'.active, true);
    TotalSame(h.store, h'.store, h'.active, false);
    TotalConcat(h'.store, [id], h.reserved, false);
    TotalSame(h.store, h'.store, h.reserved, false);
  }

  lemma RetiredKeeps<T>(h: Hive<T>, id: nat, b: Block<T>, h': Hive<T>)
    requires Inv(h) && id in h.active && id in h.store && h.store[id].liveCount == 1
    requires Valid(b) && b.liveCount == 0 && b.capacity == h.store[id].capacity
    requires h.size > 0 && h' == Retired(h, id, b)
    ensures Inv(h')
  {
    hide Valid, HasSpace, Total;
    RetiredLists(h, id, b, h');
    RetiredSums(h, id, b, h');
    DropRemoves(h.active, id);
    assert BlockOk(h, id);
    forall i ensures BlockOk(h', i) { assert BlockOk(h, i); }
  }

  lemma ShrunkKeeps<T>(h: Hive<T>, id: nat, b: Block<T>, h': Hive<T>)
    requires Inv(h) && id in h.active && id in h.store && h.store[id].liveCount == b.liveCount + 1
    requires Valid(b) && b.liveCount > 0 && HasSpace(b) && b.capacity == h.store[id].capacity
    requires h.size > 0 && h' == Shrunk(h, id, b)
    ensures Inv(h')
  {
    hide Valid, HasSpace, Total;
    ShrunkLists(h, id, b, h');
    BlocksReplaced(h, id, b, h');
    ReplaceSums(h, h', id, b);
  }

  lemma LiveBlock<T>(h: Hive<T>, l: Loc)
    requires Inv(h) && LiveAt(h, l)
    ensures l.block in h.store && l.block in h.active && h.size > 0
    ensures var b := h.store[l.block];
            Valid(b) && Sized(b) && IsLive(b, l.index) && EraseReadable(b, l.index)
  {
    assert BlockOk(h, l.block);
    var b := h.store[l.block];
    BlockFacts(b);
    var fl :| BlockInv(b, fl);
    ReadableErase(b, fl, l.index);
    TotalSplit(h.store, h.active, Position(h.active, l.block), true);
  }

  /** Erasing an element leaves a block with room, and one live element fewer. */
  lemma ErasedBlock<T>(b: Block<T>, i: nat)
    requires Valid(b) && IsLive(b, i)
    ensures Sized(b) && EraseReadable(b, i)
    ensures var b' := Erase(b, i);
            && Valid(b') && HasSpace(b') && b'.capacity == b.capacity && b.liveCount == b'.liveCount + 1
            && i in Contents(b) && Contents(b') == Contents(b) - {i}
            && (b'.liveCount == 0 ==> Reset(b') == b')
  {
    hide BlockInv, Erase, Contents;
    Proofs.EraseKeeps(b, i);
    var b' := Erase(b, i);
    BlockFacts(b);
    BlockFacts(b');
    assert Contents(b) == Contents(b')[i := Contents(b)[i]];
    Proofs.SpaceIffNotFull(b');
    Proofs.SpaceIffNotFull(b);
    if b'.liveCount == 0 { Proofs.EmptyIsPristine(b'); }
    LiveAtMostCapacity(b);
  }

  lemma LiveAtMostCapacity<T>(b: Block<T>)
    requires Valid(b)
    ensures b.liveCount <= b.capacity
  {
    Proofs.BoundedKeys(Contents(b).Keys, b.capacity);
    assert |Contents(b).Keys| == |Contents(b)|;
  }

  lemma EraseAtKeeps<T>(h: Hive<T>, l: Loc)
    requires Inv(h) && LiveAt(h, l)
    ensures l.block in h.store && h.size > 0
    ensures var b := h.store[l.block]; Sized(b) && IsLive(b, l.index) && EraseReadable(b, l.index)
    ensures Inv(EraseAt(h, l)) && RemovedAt(h, EraseAt(h, l), l)
  {
    hide Valid, HasSpace, Total, Contents, Erase, Drop, IsLive, EraseReadable;
    LiveBlock(h, l);
    ErasedBlock(h.store[l.block], l.index);
    var b := Erase(h.store[l.block], l.index);
    if b.liveCount == 0 {
      RetiredKeeps(h, l.block, b, EraseAt(h, l));
    } else {
      ShrunkKeeps(h, l.block, b, EraseAt(h, l));
    }
    StoreRemove(h, EraseAt(h, l), l.block, b, l.index);
  }

  // ----- Failed constructions

  /** Same elements at the same locations, with the same values and block order. */
  ghost predicate SameElements<T>(h: Hive<T>, h': Hive<T>) {
    && (forall l: Loc :: LiveAt(h, l) <==> LiveAt(h', l))
    && (forall l: Loc | LiveAt(h, l) && LiveAt(h', l) :: ValueAt(h, l) == ValueAt(h', l))
    && h'.order == h.order
  }

  lemma StoreSame<T>(h: Hive<T>, id: nat, b: Block<T>, h': Hive<T>)
    requires id in h.store && Contents(b) == Contents(h.store[id]) && h' == h.(store := h.store[id := b])
    ensures SameElements(h, h')
  {
    hide Contents;
  }

  lemma BytesKeepLists<T>(h: Hive<T>, id: nat, b: Block<T>, h': Hive<T>)
    requires ListsOk(h) && AvailableOk(h) && OrderOk(h) && id in h.store && h' == h.(store := h.store[id := b])
    requires HasSpace(b) <==> HasSpace(h.store[id])
    ensures ListsOk(h') && AvailableOk(h') && OrderOk(h')
  {
    hide HasSpace;
  }

  lemma BytesKeep<T>(h: Hive<T>, id: nat, b: Block<T>, h': Hive<T>)
    requires Inv(h) && id in h.store && Valid(b) && h' == h.(store := h.store[id := b])
    requires b.capacity == h.store[id].capacity && b.liveCount == h.store[id].liveCount
    requires HasSpace(b) <==> HasSpace(h.store[id])
    ensures Inv(h')
  {
    hide Valid, HasSpace, AvailableOk;
    assert BlockOk(h, id);
    BytesKeepLists(h, id, b, h');
    forall i ensures BlockOk(h', i) { assert BlockOk(h, i); }
    TotalSame(h.store, h'.store, h.active, true);
    TotalSame(h.store, h'.store, h.active, false);
    TotalSame(h.store, h'.store, h.reserved, false);
  }

  /** A throwing construction in an available block changes no element and keeps the invariant. */
  lemma ThrowKeeps<T>(h: Hive<T>)
    requires Inv(h) && h.available != []
    ensures var id := h.available[0];
            && id in h.store && Sized(h.store[id]) && HasSpace(h.store[id]) && EmplaceReadable(h.store[id])
            && var h' := h.(store := h.store[id := EmplaceThrow(h.store[id])]);
            && Inv(h') && SameElements(h, h')
  {
    hide BlockInv, Contents;
    AvailableReady(h);
    var id := h.available[0];
    var b := h.store[id];
    Proofs.EmplaceThrowKeeps(b);
    BlockFacts(b);
    BlockFacts(EmplaceThrow(b));
    BytesKeep(h, id, EmplaceThrow(b), h.(store := h.store[id := EmplaceThrow(b)]));
    StoreSame(h, id, EmplaceThrow(b), h.(store := h.store[id := EmplaceThrow(b)]));
  }

  /** A throwing construction in a vacant block leaves it vacant. */
  lemma VacantThrow<T>(b: Block<T>)
    requires Valid(b) && b.liveCount == 0
    ensures |b.slots| > 0
    ensures var b' := b.(slots := b.slots[0 := Raw]);
            Valid(b') && Contents(b') == Contents(b) && (HasSpace(b') <==> HasSpace(b))
  {
    BlockFacts(b);
    Proofs.EmptyIsPristine(b);
    var b' := b.(slots := b.slots[0 := Raw]);
    Proofs.VacantValid(b.capacity, b'.skip, b'.slots);
    assert b' == Vacant(b.capacity, b'.skip, b'.slots);
  }

  lemma ReservedFacts<T>(h: Hive<T>)
    requires Inv(h) && h.reserved != []
    ensures var id := h.reserved[0];
            && id in h.store && id != NULL && id !in h.active && id !in h.available
            && Valid(h.store[id]) && h.store[id].liveCount == 0
            && 0 < |h.store[id].slots| && 0 < |h.store[id].skip|
  {
    var id := h.reserved[0];
    assert id in h.reserved && BlockOk(h, id);
    BlockFacts(h.store[id]);
  }

  lemma ReservedThrowKeeps<T>(h: Hive<T>)
    requires Inv(h) && h.reserved != []
    ensures var id := h.reserved[0];
            && id in h.store && 0 < |h.store[id].slots|
            && var h' := h.(store := h.store[id := h.store[id].(slots := h.store[id].slots[0 := Raw])]);
            && Inv(h') && SameElements(h, h')
  {
    hide Valid, Contents, HasSpace, Inv;
    ReservedFacts(h);
    var id := h.reserved[0];
    var b := h.store[id].(slots := h.store[id].slots[0 := Raw]);
    VacantThrow(h.store[id]);
    BytesKeep(h, id, b, h.(store := h.store[id := b]));
    StoreSame(h, id, b, h.(store := h.store[id := b]));
  }
}
