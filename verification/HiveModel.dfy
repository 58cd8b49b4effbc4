/**
  The container as a value: blocks by address, the active, available and reserved
  block lists, and the traversal order of the elements.

  `Traversal(h, t)` says that `t` lists exactly the live locations in the order
  that iterator comparison defines.  It is stated without reference to the
  skipfield, so it is an independent yardstick for the jump-based iterators.
 */
module HiveModel {
  import opened HiveBlock

  const NULL: nat := 0

  datatype Loc = Loc(block: nat, index: nat)

  datatype Hive<T> = Hive(
    store: map<nat, Block<T>>,
    order: map<nat, nat>,
    nextOrder: nat,
    active: seq<nat>,
    available: seq<nat>,
    reserved: seq<nat>,
    size: nat,
    capacity: nat,
    min: nat,
    max: nat)

  // ----- Sums over a block list

  function Weight<T>(b: Block<T>, live: bool): nat {
    if live then b.liveCount else b.capacity
  }

  function Total<T>(store: map<nat, Block<T>>, ids: seq<nat>, live: bool): nat
    requires forall id | id in ids :: id in store
  {
    if ids == [] then 0
    else Weight(store[ids[0]], live) + Total(store, ids[1..], live)
  }

  // ----- The invariant

  /** Active and reserved blocks partition the storage. */
  ghost predicate ListsOk<T>(h: Hive<T>) {
    && Distinct(h.active) && Distinct(h.available) && Distinct(h.reserved)
    && (forall id | id in h.active :: id in h.store && id in h.order && id !in h.reserved)
    && (forall id | id in h.reserved :: id in h.store)
    && (forall id | id in h.store :: id != NULL && (id in h.active || id in h.reserved))
  }

  ghost predicate BlockOk<T>(h: Hive<T>, id: nat) {
    id in h.store ==>
      && Valid(h.store[id])
      && h.min <= h.store[id].capacity <= h.max
      && (h.store[id].liveCount > 0 <==> id in h.active)
  }

  ghost predicate BlocksOk<T>(h: Hive<T>) {
    forall id :: BlockOk(h, id)
  }

  /** The available list holds exactly the active blocks with space. */
  ghost predicate AvailableOk<T>(h: Hive<T>)
    requires ListsOk(h)
  {
    && (forall id | id in h.available :: id in h.active && HasSpace(h.store[id]))
    && (forall id | id in h.active && HasSpace(h.store[id]) :: id in h.available)
  }

  ghost predicate OrderOk<T>(h: Hive<T>)
    requires ListsOk(h)
  {
    && (forall p, q | 0 <= p < q < |h.active| :: h.order[h.active[p]] < h.order[h.active[q]])
    && (forall id | id in h.active :: h.order[id] < h.nextOrder)
  }

  ghost predicate SumsOk<T>(h: Hive<T>)
    requires ListsOk(h)
  {
    && h.size == Total(h.store, h.active, true)
    && h.capacity == Total(h.store, h.active, false) + Total(h.store, h.reserved, false)
  }

  ghost predicate Inv<T>(h: Hive<T>) {
    && 1 <= h.min <= h.max
    && ListsOk(h)
    && BlocksOk(h)
    && AvailableOk(h)
    && OrderOk(h)
    && SumsOk(h)
  }

  // ----- Elements and their order

  predicate LiveAt<T>(h: Hive<T>, l: Loc) {
    l.block in h.store && l.index in Contents(h.store[l.block])
  }

  function ValueAt<T>(h: Hive<T>, l: Loc): T
    requires LiveAt(h, l)
  {
    Contents(h.store[l.block])[l.index]
  }

  /** Iterator comparison within one container. */
  predicate Before(order: map<nat, nat>, a: Loc, b: Loc)
    requires a.block in order && b.block in order
  {
    if a.block == b.block then a.index < b.index else order[a.block] < order[b.block]
  }

  ghost predicate Traversal<T>(h: Hive<T>, t: seq<Loc>) {
    && (forall l | l in t :: LiveAt(h, l) && l.block in h.order)
    && (forall l | LiveAt(h, l) :: l in t)
    && (forall p, q | 0 <= p < q < |t| :: Before(h.order, t[p], t[q]))
  }

  ghost function Values<T>(h: Hive<T>, t: seq<Loc>): (vs: seq<T>)
    requires forall l | l in t :: LiveAt(h, l)
    ensures |vs| == |t|
  {
    seq(|t|, i requires 0 <= i < |t| => ValueAt(h, t[i]))
  }

  // ----- Operations at the level of the block lists

  function Position(s: seq<nat>, x: nat): (p: nat)
    requires x in s
    ensures p < |s| && s[p] == x && x !in s[..p]
  {
    if s[0] == x then 0 else 1 + Position(s[1..], x)
  }

  function Drop(s: seq<nat>, x: nat): seq<nat> {
    if x in s then Without(s, Position(s, x)) else s
  }

  /** The first available block holds one more element, `b` being its new value. */
  function Grown<T>(h: Hive<T>, id: nat, b: Block<T>): Hive<T>
    requires h.available != []
  {
    h.(store := h.store[id := b],
       available := if HasSpace(b) then h.available else h.available[1..],
       size := h.size + 1)
  }

  /** A successful construction in the head of the available list. */
  function EmplaceAvailable<T>(h: Hive<T>, v: T): Hive<T>
    requires h.available != [] && h.available[0] in h.store
    requires var b := h.store[h.available[0]]; Sized(b) && HasSpace(b) && EmplaceReadable(b)
  {
    var id := h.available[0];
    Grown(h, id, EmplaceCommit(h.store[id], v))
  }

  /** A vacant block after its first element. */
  function FirstElement<T>(b: Block<T>, v: T): Block<T>
    requires 0 < |b.slots| && 0 < |b.skip|
  {
    b.(slots := b.slots[0 := Live(v)], skip := b.skip[0 := 0], highWater := 1, liveCount := 1)
  }

  /** Block `id`, already holding its first element, joins the end of the active list. */
  function Activate<T>(h: Hive<T>, id: nat, b: Block<T>): Hive<T> {
    h.(store := h.store[id := b],
       active := h.active + [id],
       order := h.order[id := h.nextOrder],
       nextOrder := h.nextOrder + 1,
       available := if b.highWater != b.capacity then [id] + h.available else h.available,
       size := h.size + 1)
  }

  function EmplaceReserved<T>(h: Hive<T>, v: T): Hive<T>
    requires h.reserved != [] && h.reserved[0] in h.store
    requires 0 < |h.store[h.reserved[0]].slots| && 0 < |h.store[h.reserved[0]].skip|
  {
    var id := h.reserved[0];
    Activate(h.(reserved := h.reserved[1..]), id, FirstElement(h.store[id], v))
  }

  /** Releases the first reserved block. */
  function DropReserved<T>(h: Hive<T>): Hive<T>
    requires h.reserved != [] && h.reserved[0] in h.store
    requires h.store[h.reserved[0]].capacity <= h.capacity
  {
    h.(store := h.store - {h.reserved[0]},
       reserved := h.reserved[1..],
       capacity := h.capacity - h.store[h.reserved[0]].capacity)
  }

  function EmplaceAllocated<T>(h: Hive<T>, id: nat, b: Block<T>, v: T): Hive<T>
    requires 0 < |b.slots| && 0 < |b.skip|
  {
    Activate(h.(capacity := h.capacity + b.capacity), id, FirstElement(b, v))
  }

  function Reset<T>(b: Block<T>): Block<T> {
    b.(liveCount := 0, highWater := 0, freeHead := NPOS)
  }

  /** Block `id` lost an element but is not empty. */
  function Shrunk<T>(h: Hive<T>, id: nat, b: Block<T>): Hive<T>
    requires h.size > 0
  {
    h.(store := h.store[id := b],
       available := if id in h.available then h.available else [id] + h.available,
       size := h.size - 1)
  }

  /** Block `id` lost its last element and goes to the front of the reserved list. */
  function Retired<T>(h: Hive<T>, id: nat, b: Block<T>): Hive<T>
    requires h.size > 0
  {
    h.(store := h.store[id := b],
       available := Drop(h.available, id),
       active := Drop(h.active, id),
       reserved := [id] + h.reserved,
       size := h.size - 1)
  }

  function EraseAt<T>(h: Hive<T>, l: Loc): Hive<T>
    requires l.block in h.store && h.size > 0
    requires var b := h.store[l.block]; Sized(b) && IsLive(b, l.index) && EraseReadable(b, l.index)
  {
    var b := Erase(h.store[l.block], l.index);
    if b.liveCount == 0 then Retired(h, l.block, Reset(b)) else Shrunk(h, l.block, b)
  }

  // ----- Which path an emplace took

  ghost predicate TookAvailable<T>(h: Hive<T>, v: T, h': Hive<T>) {
    && h.available != [] && h.available[0] in h.store
    && var b := h.store[h.available[0]];
    && Sized(b) && HasSpace(b) && EmplaceReadable(b)
    && h' == EmplaceAvailable(h, v)
  }

  ghost predicate TookReserved<T>(h: Hive<T>, v: T, h': Hive<T>) {
    && h.available == [] && h.reserved != [] && h.reserved[0] in h.store
    && 0 < |h.store[h.reserved[0]].slots| && 0 < |h.store[h.reserved[0]].skip|
    && h' == EmplaceReserved(h, v)
  }
}
