/**
  The container, updated in place: blocks by address, the intrusive lists and the
  counters.  Every method is proved against the container values of `HiveModel`.
 */
module HiveContainer {
  import opened HiveBlock
  import opened HiveModel
  import opened HiveModelProofs
  import opened HiveTraversal
  import opened HiveElements
  import opened HiveLists
  import Proofs = HiveBlockProofs

  datatype EmplaceResult = Emplaced(loc: Loc) | ConstructionThrew | AllocationFailed | LengthError

  /** What the allocator answers: limits, and whether and where a new block appears. */
  datatype Allocator = Allocator(maxSize: nat, blockMax: nat, succeeds: bool, address: nat, garbage: nat -> nat)

  function Min(a: int, b: int): int { if a < b then a else b }
  function Max(a: int, b: int): int { if a < b then b else a }

  /** Largest block the current limits, 16-bit indices and the allocator admit. */
  function BlockMax(max: nat, allocator: Allocator): nat {
    Min(max, Min(SLOT_NPOS, allocator.blockMax))
  }

  function FreshBlock<T>(n: nat, garbage: nat -> nat): Block<T> {
    Vacant(n, seq<nat>(n, garbage), seq<Slot<T>>(n, _ => Raw))
  }

  lemma FreshBlockValid<T>(n: nat, garbage: nat -> nat)
    requires 1 <= n <= SLOT_NPOS
    ensures HiveBlock.Valid(FreshBlock<T>(n, garbage)) && FreshBlock<T>(n, garbage).liveCount == 0
  {
    Proofs.VacantValid<T>(n, seq<nat>(n, garbage), seq<Slot<T>>(n, _ => Raw));
  }

  lemma SameTraversal<T>(h: Hive<T>, h': Hive<T>, t: seq<Loc>)
    requires SameElements(h, h') && Traversal(h, t)
    ensures Traversal(h', t) && Values(h', t) == Values(h, t)
  {
    hide LiveAt, ValueAt;
    assert forall i | 0 <= i < |t| :: t[i] in t;
  }

  class Container<T> {
    var store: map<nat, Block<T>>
    var order: map<nat, nat>
    var nextOrder: nat
    var size: nat
    var capacity: nat
    var endEpoch: nat
    var min: nat
    var max: nat
    var inAvailable: set<nat>
    var activeTail: nat
    const active: DList
    const available: DList
    const reserved: SList

    ghost function Frame(): set<object> {
      {this, active, available, reserved}
    }

    ghost function View(): Hive<T>
      reads Frame()
    {
      Hive(store, order, nextOrder, active.s, available.s, reserved.s, size, capacity, min, max)
    }

    /** The links spell out the three lists and the cached tail and flags agree with them. */
    ghost predicate Linked()
      reads Frame()
    {
      && active != available
      && active.Valid() && available.Valid() && reserved.Valid()
      && activeTail == active.Last()
      && (forall id :: id in inAvailable <==> id in available.s)
    }

    ghost predicate Valid()
      reads Frame()
    {
      Linked() && Inv(View())
    }

    constructor (lo: nat, hi: nat)
      requires 1 <= lo <= hi
      ensures Valid() && fresh(active) && fresh(available) && fresh(reserved)
      ensures View() == Hive(map[], map[], 0, [], [], [], 0, 0, lo, hi)
    {
      store, order, nextOrder, size, capacity, endEpoch := map[], map[], 0, 0, 0, 0;
      min, max := lo, hi;
      inAvailable, activeTail := {}, NULL;
      active := new DList();
      available := new DList();
      reserved := new SList();
    }

    // ----- List updates

    method AvailableAdd(id: nat)
      requires Linked() && id != NULL && id !in available.s
      modifies this`inAvailable, available
      ensures Linked() && View() == old(View()).(available := [id] + old(available.s))
    {
      inAvailable := inAvailable + {id};
      available.PushFront(id);
    }

    method AvailableRemove(id: nat)
      requires Linked()
      modifies this`inAvailable, available
      ensures Linked() && View() == old(View()).(available := Drop(old(available.s), id))
    {
      if id in inAvailable {
        inAvailable := inAvailable - {id};
        DropRemoves(available.s, id);
        available.Remove(id, Position(available.s, id));
      }
    }

    method ActiveAppend(id: nat)
      requires Linked() && id != NULL && id !in active.s
      modifies this`order, this`nextOrder, this`activeTail, active
      ensures Linked()
      ensures View() == old(View()).(active := old(active.s) + [id],
                                     order := old(order)[id := old(nextOrder)],
                                     nextOrder := old(nextOrder) + 1)
    {
      order := order[id := nextOrder];
      nextOrder := nextOrder + 1;
      active.Append(id, activeTail);
      activeTail := id;
    }

    method ActiveRemove(id: nat)
      requires Linked() && id in active.s
      modifies this`activeTail, active
      ensures Linked() && View() == old(View()).(active := Drop(old(active.s), id))
    {
      ghost var k := Position(active.s, id);
      var after := active.Successor(id, k);
      if after == NULL {
        activeTail := active.Predecessor(id, k);
      }
      active.Remove(id, k);
    }

    /** A block with its first element, `b` being its value, joins the active list. */
    method ActivateBlock(id: nat, b: Block<T>)
      requires Linked() && id != NULL && id !in active.s && id !in available.s
      modifies Frame()
      ensures Linked() && View() == Activate(old(View()), id, b) && endEpoch == old(endEpoch) + 1
    {
      store := store[id := b];
      size := size + 1;
      endEpoch := endEpoch + 1;
      ActiveAppend(id);
      if b.highWater != b.capacity {
        AvailableAdd(id);
      }
    }

    // ----- Emplace

    /** The first available block holds one more element; a full block leaves the list. */
    method FillFirst(id: nat, b: Block<T>)
      requires Linked() && available.s != [] && id == available.s[0] && b.highWater <= b.capacity
      modifies this, available
      ensures Linked() && View() == Grown(old(View()), id, b) && endEpoch == old(endEpoch) + 1
    {
      store := store[id := b];
      size := size + 1;
      if b.highWater == b.capacity && b.freeHead == NPOS {
        AvailableRemove(id);
        assert Drop(old(available.s), id) == old(available.s)[1..];
      }
      endEpoch := endEpoch + 1;
    }

    /** Construction in the first available block. */
    method EmplaceInAvailable(v: T, throws: bool) returns (r: EmplaceResult)
      requires Valid() && available.s != []
      modifies this, available
      ensures Valid()
      ensures throws ==> r.ConstructionThrew? && SameElements(old(View()), View()) && endEpoch == old(endEpoch)
      ensures !throws ==>
                && r.Emplaced? && r.loc.block == old(available.s)[0]
                && AddedAt(old(View()), View(), r.loc, v) && endEpoch == old(endEpoch) + 1
                && TookAvailable(old(View()), v, View())
                && r.loc == Loc(old(available.s)[0], EmplaceIndex(old(store)[old(available.s)[0]]))
      ensures capacity == old(capacity) && min == old(min) && max == old(max)
    {
      hide Inv, BlockInv, Contents, EmplaceCommit, EmplaceThrow, EmplaceReadable, LiveAt;
      ghost var h := View();
      EmplaceAvailableKeeps(h, v);
      var id := available.head;
      var b := store[id];
      if throws {
        ThrowKeeps(h);
        store := store[id := EmplaceThrow(b)];
        r := ConstructionThrew;
      } else {
        var index := EmplaceIndex(b);
        FillFirst(id, EmplaceCommit(b, v));
        r := Emplaced(Loc(id, index));
        assert View() == EmplaceAvailable(h, v);
      }
    }

    /** Construction in the first reserved block, which becomes active. */
    method EmplaceInReserved(v: T, throws: bool) returns (r: EmplaceResult)
      requires Valid() && available.s == [] && reserved.s != []
      modifies Frame()
      ensures Valid()
      ensures throws ==> r.ConstructionThrew? && SameElements(old(View()), View()) && endEpoch == old(endEpoch)
      ensures !throws ==>
                && r.Emplaced? && r.loc == Loc(old(reserved.s)[0], 0)
                && AddedAt(old(View()), View(), r.loc, v) && endEpoch == old(endEpoch) + 1
                && TookReserved(old(View()), v, View())
                && active.s == old(active.s) + [old(reserved.s)[0]] && reserved.s == old(reserved.s)[1..]
      ensures capacity == old(capacity) && min == old(min) && max == old(max)
    {
      hide Inv, BlockInv, Contents, LiveAt;
      ghost var h := View();
      EmplaceReservedKeeps(h, v);
      ReservedFacts(h);
      var id := reserved.head;
      if throws {
        ReservedThrowKeeps(h);
        store := store[id := store[id].(slots := store[id].slots[0 := Raw])];
        r := ConstructionThrew;
      } else {
        var popped := reserved.PopFront();
        ActivateBlock(id, FirstElement(store[id], v));
        r := Emplaced(Loc(id, 0));
        assert View() == EmplaceReserved(h, v);
      }
    }

    /** A new block with its first element joins the active list. */
    method InstallBlock(id: nat, b: Block<T>, v: T)
      requires Linked() && id != NULL && id !in active.s && id !in available.s
      requires 0 < |b.slots| && 0 < |b.skip|
      modifies Frame()
      ensures Linked() && View() == EmplaceAllocated(old(View()), id, b, v)
      ensures endEpoch == old(endEpoch) + 1
    {
      capacity := capacity + b.capacity;
      ActivateBlock(id, FirstElement(b, v));
    }

    /** Growth: a new block of geometric size, or an error that changes nothing. */
    method EmplaceInNewBlock(v: T, throws: bool, allocator: Allocator) returns (r: EmplaceResult)
      requires Valid() && available.s == [] && reserved.s == []
      requires allocator.succeeds ==> allocator.address != NULL && allocator.address !in store
      modifies Frame()
      ensures Valid()
      ensures r.LengthError? <==>
                BlockMax(max, allocator) < min || capacity > allocator.maxSize || min > allocator.maxSize - old(capacity)
      ensures r.ConstructionThrew? ==> throws
      ensures r.AllocationFailed? ==> !allocator.succeeds
      ensures !r.Emplaced? ==> View() == old(View()) && endEpoch == old(endEpoch)
      ensures r.Emplaced? ==>
                && !throws && allocator.succeeds && r.loc == Loc(allocator.address, 0)
                && AddedAt(old(View()), View(), r.loc, v) && endEpoch == old(endEpoch) + 1
                && active.s == old(active.s) + [allocator.address]
                && min <= capacity - old(capacity) <= BlockMax(max, allocator) && capacity <= allocator.maxSize
                && capacity - old(capacity) ==
                     Min(Max(min, old(capacity)), Min(BlockMax(max, allocator), allocator.maxSize - old(capacity)))
                && (capacity >= old(capacity) + old(capacity) || capacity - old(capacity) == BlockMax(max, allocator)
                    || capacity == allocator.maxSize)
      ensures !r.LengthError? ==>
                if !allocator.succeeds then r.AllocationFailed? else if throws then r.ConstructionThrew? else r.Emplaced?
      ensures min == old(min) && max == old(max)
    {
      hide Inv, BlockInv, Contents, LiveAt;
      ghost var h := View();
      var blockMax := BlockMax(max, allocator);
      if blockMax < min || capacity > allocator.maxSize || min > allocator.maxSize - capacity {
        return LengthError;
      }
      LimitsFacts(h);
      var n := Min(Max(min, capacity), Min(blockMax, allocator.maxSize - capacity));
      if !allocator.succeeds {
        return AllocationFailed;
      }
      if throws {
        return ConstructionThrew;
      }
      var id := allocator.address;
      var b: Block<T> := FreshBlock(n, allocator.garbage);
      FreshBlockValid<T>(n, allocator.garbage);
      EmplaceAllocatedKeeps(h, id, b, v);
      AllocatedUnlisted(h, id);
      InstallBlock(id, b, v);
      r := Emplaced(Loc(id, 0));
    }

    /**
      Emplace: reuse an available block, else a reserved one, else grow.  On success one
      element appears at a location that held none and every other element keeps its
      location and value; on failure no element changes and end is not invalidated.
     */
    method Emplace(v: T, throws: bool, allocator: Allocator) returns (r: EmplaceResult)
      requires Valid()
      requires allocator.succeeds ==> allocator.address != NULL && allocator.address !in store
      modifies Frame()
      ensures Valid()
      ensures r.Emplaced? ==> AddedAt(old(View()), View(), r.loc, v) && endEpoch == old(endEpoch) + 1
      ensures !r.Emplaced? ==> SameElements(old(View()), View()) && endEpoch == old(endEpoch)
      ensures r.Emplaced? ==> active.s == old(active.s) + if old(available.s) == [] then [r.loc.block] else []
      ensures old(available.s + reserved.s) != [] ==>
                capacity == old(capacity) && (if throws then r.ConstructionThrew? else r.Emplaced?)
      ensures !throws && old(available.s) != [] ==>
                && TookAvailable(old(View()), v, View())
                && r == Emplaced(Loc(old(available.s)[0], EmplaceIndex(old(store)[old(available.s)[0]])))
      ensures !throws && old(available.s) == [] && old(reserved.s) != [] ==>
                TookReserved(old(View()), v, View()) && r == Emplaced(Loc(old(reserved.s)[0], 0))
      ensures old(available.s) == [] && old(reserved.s) == [] ==>
                (r.LengthError? <==>
                  BlockMax(max, allocator) < min || capacity > allocator.maxSize || min > allocator.maxSize - old(capacity))
      ensures old(available.s) == [] && old(reserved.s) == [] && r.Emplaced? ==>
                capacity - old(capacity) ==
                  Min(Max(min, old(capacity)), Min(BlockMax(max, allocator), allocator.maxSize - old(capacity)))
      ensures min == old(min) && max == old(max)
    {
      hide LiveAt, Inv, TookAvailable, TookReserved;
      if available.head != NULL {
        FirstNonNull(available);
        r := EmplaceInAvailable(v, throws);
      } else if reserved.head != NULL {
        FirstNonNull(available);
        r := EmplaceInReserved(v, throws);
      } else {
        FirstNonNull(available);
        ReservedNonNull(reserved);
        r := EmplaceInNewBlock(v, throws, allocator);
      }
    }

    // ----- Iteration

    method First() returns (it: Iterator)
      requires Valid()
      ensures forall id | id in active.s :: id in store && 0 < store[id].highWater <= |store[id].skip|
      ensures it == Begin(View())
    {
      hide Inv, HiveBlock.Valid;
      ActiveReadable(View());
      FirstNonNull(active);
      if active.head != NULL {
        var id := active.head;
        it := At(Loc(id, SkipAt(store[id], 0)));
      } else {
        it := End;
      }
    }

    method Increment(l: Loc) returns (it: Iterator)
      requires Valid() && LiveAt(View(), l)
      ensures l.block in active.s
      ensures forall id | id in active.s :: id in store && 0 < store[id].highWater <= |store[id].skip|
      ensures it == Next(View(), l)
    {
      hide Inv, HiveBlock.Valid, LiveAt;
      ActiveReadable(View());
      LiveFacts(View(), l);
      var b := store[l.block];
      var next := l.index + 1;
      if next < b.highWater {
        it := At(Loc(l.block, next + SkipAt(b, next)));
      } else {
        ghost var k := Position(active.s, l.block);
        var id := active.Successor(l.block, k);
        if id != NULL {
          it := At(Loc(id, SkipAt(store[id], 0)));
        } else {
          it := End;
        }
      }
    }

    method Decrement(it: Iterator) returns (r: Iterator)
      requires Valid() && (it.At? ==> LiveAt(View(), it.loc))
      ensures forall id | id in active.s :: id in store && 0 < store[id].highWater <= |store[id].skip|
      ensures it.At? ==> it.loc.block in active.s && it.loc.index < store[it.loc.block].highWater
      ensures r == Prev(View(), it)
    {
      hide Inv, HiveBlock.Valid, LiveAt;
      ActiveReadable(View());
      if it.End? {
        assert active.s != [] ==> DList.NodeOk(active.prev, active.next, active.s, |active.s| - 1);
        if activeTail == NULL { return it; }
        return At(Loc(activeTail, store[activeTail].highWater - 1));
      }
      LiveFacts(View(), it.loc);
      var b, i := store[it.loc.block], it.loc.index;
      if i != 0 {
        var skipped := SkipAt(b, i - 1);
        if skipped <= i - 1 {
          return At(Loc(it.loc.block, i - 1 - skipped));
        }
      }
      var id := active.Predecessor(it.loc.block, Position(active.s, it.loc.block));
      r := if id == NULL then it else At(Loc(id, store[id].highWater - 1));
    }

    /** Dereference. */
    method Get(l: Loc) returns (v: T)
      requires Valid() && LiveAt(View(), l)
      ensures v == ValueAt(View(), l)
    {
      v := store[l.block].slots[l.index].value;
    }

    // ----- Erase

    /** An emptied block leaves both lists and waits on the reserved list. */
    method Retire(id: nat, b: Block<T>)
      requires Linked() && id in active.s && id != NULL && id !in reserved.s && size > 0
      modifies Frame()
      ensures Linked() && View() == Retired(old(View()), id, b) && endEpoch == old(endEpoch)
    {
      hide DList.NodeOk, SList.NodeOk, Distinct, Drop;
      size := size - 1;
      AvailableRemove(id);
      ActiveRemove(id);
      store := store[id := b];
      reserved.PushFront(id);
    }

    /** A block that lost an element but not its last one is available. */
    method Shrink(id: nat, b: Block<T>)
      requires Linked() && id != NULL && size > 0
      modifies Frame()
      ensures Linked() && View() == Shrunk(old(View()), id, b) && endEpoch == old(endEpoch)
    {
      size := size - 1;
      store := store[id := b];
      if id !in inAvailable {
        AvailableAdd(id);
      }
    }

    /** Takes the element out of its block, and the block out of circulation when it was the last one. */
    method EraseInBlock(l: Loc)
      requires Valid() && LiveAt(View(), l)
      modifies Frame()
      ensures Valid() && RemovedAt(old(View()), View(), l) && endEpoch == old(endEpoch)
      ensures capacity == old(capacity) && min == old(min) && max == old(max) && size + 1 == old(size)
      ensures if old(store)[l.block].liveCount == 1 then
                && reserved.s == [l.block] + old(reserved.s) && active.s == Drop(old(active.s), l.block)
                && available.s == Drop(old(available.s), l.block)
              else
                && reserved.s == old(reserved.s) && active.s == old(active.s)
                && available.s == (if l.block in old(available.s) then [] else [l.block]) + old(available.s)
    {
      hide Inv, HiveBlock.Valid, LiveAt, HiveBlock.Erase, IsLive, EraseReadable, RemovedAt, Sized;
      ghost var h := View();
      EraseAtKeeps(h, l);
      ErasableBlock(h, l);
      EraseCounts(store[l.block], l.index);
      var b := HiveBlock.Erase(store[l.block], l.index);
      if b.liveCount == 0 {
        Retire(l.block, Reset(b));
      } else {
        Shrink(l.block, b);
      }
      assert View() == EraseAt(h, l);
    }

    /** Erase removes exactly the given element and returns its successor. */
    method Erase(l: Loc) returns (it: Iterator)
      requires Valid() && LiveAt(View(), l)
      modifies Frame()
      ensures Valid() && RemovedAt(old(View()), View(), l)
      ensures l.block in old(active.s)
      ensures forall id | id in old(active.s) ::
                id in old(store) && 0 < old(store)[id].highWater <= |old(store)[id].skip|
      ensures it == Next(old(View()), l)
      ensures endEpoch == old(endEpoch) + if it.End? then 1 else 0
      ensures capacity == old(capacity) && min == old(min) && max == old(max) && size + 1 == old(size)
      ensures if old(store)[l.block].liveCount == 1 then
                && reserved.s == [l.block] + old(reserved.s) && active.s == Drop(old(active.s), l.block)
                && available.s == Drop(old(available.s), l.block)
              else
                && reserved.s == old(reserved.s) && active.s == old(active.s)
                && available.s == (if l.block in old(available.s) then [] else [l.block]) + old(available.s)
    {
      hide Inv, LiveAt, RemovedAt;
      it := Increment(l);
      EraseInBlock(l);
      if it.End? {
        endEpoch := endEpoch + 1;
      }
    }
  }

  lemma EraseCounts<T>(b: Block<T>, x: nat)
    requires Sized(b) && IsLive(b, x) && EraseReadable(b, x)
    ensures HiveBlock.Erase(b, x).liveCount + 1 == b.liveCount
  {
  }

  lemma ErasableBlock<T>(h: Hive<T>, l: Loc)
    requires Inv(h) && LiveAt(h, l)
    ensures l.block != NULL && l.block in h.active && l.block !in h.reserved && h.size > 0
  {
    LiveBlock(h, l);
  }

  lemma FirstNonNull(d: DList)
    requires d.Valid()
    ensures d.head == NULL <==> d.s == []
  {
    assert DList.NodeOk(d.prev, d.next, d.s, 0);
  }

  lemma ReservedNonNull(d: SList)
    requires d.Valid()
    ensures d.head == NULL <==> d.s == []
  {
    assert SList.NodeOk(d.next, d.s, 0);
  }

  lemma LimitsFacts<T>(h: Hive<T>)
    requires Inv(h)
    ensures 1 <= h.min <= h.max
  {
  }

  lemma AllocatedUnlisted<T>(h: Hive<T>, id: nat)
    requires Inv(h) && id !in h.store
    ensures id !in h.active && id !in h.available && id !in h.reserved
  {
  }
}
