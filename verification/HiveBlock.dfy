/**
  One storage block of `std::hive` as a value: a jump-counting skipfield, the
  slots, and the free list of dead runs threaded through the dead slots.

  Reads of the skipfield go through `SkipAt`, whose precondition is the source's
  rule that only `[0, high_water)` is readable; reads of a free-list node go
  through `ReadLinks`, whose precondition is that the slot holds a node.
 */
module HiveBlock {

  const SLOT_NPOS: nat := 65535
  const NPOS: nat := 0xFFFF_FFFF_FFFF_FFFF

  /** Bytes of a slot: a live element, a free-run node, or anything else. */
  datatype Slot<T> = Live(value: T) | Links(previous: nat, next: nat) | Raw

  datatype Block<T> = Block(
    capacity: nat,
    skip: seq<nat>,
    slots: seq<Slot<T>>,
    liveCount: nat,
    highWater: nat,
    freeHead: nat)

  // ----- Index conversions; the cast to a 16-bit index is written out

  function Narrow16(x: nat): nat { x % 65536 }

  function ToSlotIndex(index: nat): nat {
    if index == NPOS then SLOT_NPOS else Narrow16(index)
  }

  function ToWideIndex(index: nat): nat {
    if index == SLOT_NPOS then NPOS else index
  }

  // ----- Free-run node access

  ghost predicate Sized<T>(b: Block<T>) {
    && 1 <= b.capacity <= SLOT_NPOS
    && |b.skip| == |b.slots| == b.capacity
    && b.highWater <= b.capacity
  }

  /** `p` is the null link or names a slot that holds a free-run node. */
  predicate Target<T>(slots: seq<Slot<T>>, p: nat) {
    p == SLOT_NPOS || (p < |slots| && slots[p].Links?)
  }

  function SkipAt<T>(b: Block<T>, i: nat): nat
    requires i < b.highWater <= |b.skip|
  {
    b.skip[i]
  }

  function ReadLinks<T>(b: Block<T>, i: nat): (links: Slot<T>)
    requires i < |b.slots| && b.slots[i].Links?
    ensures links.Links?
  {
    b.slots[i]
  }

  function WriteLinks<T>(b: Block<T>, i: nat, links: Slot<T>): Block<T>
    requires i < |b.slots| && links.Links?
  {
    b.(slots := b.slots[i := links])
  }

  function UnlinkFreeRun<T>(b: Block<T>, links: Slot<T>): Block<T>
    requires links.Links? && Target(b.slots, links.previous) && Target(b.slots, links.next)
  {
    var b1 :=
      if links.previous == SLOT_NPOS then
        b.(freeHead := ToWideIndex(links.next))
      else
        WriteLinks(b, links.previous, Links(ReadLinks(b, links.previous).previous, links.next));
    if links.next == SLOT_NPOS then b1
    else WriteLinks(b1, links.next, Links(links.previous, ReadLinks(b1, links.next).next))
  }

  function MoveFreeRun<T>(b: Block<T>, index: nat, links: Slot<T>): Block<T>
    requires index < |b.slots|
    requires links.Links? && Target(b.slots, links.previous) && Target(b.slots, links.next)
  {
    var b0 := WriteLinks(b, index, links);
    var b1 :=
      if links.previous == SLOT_NPOS then
        b0.(freeHead := index)
      else
        WriteLinks(b0, links.previous, Links(ReadLinks(b0, links.previous).previous, ToSlotIndex(index)));
    if links.next == SLOT_NPOS then b1
    else WriteLinks(b1, links.next, Links(ToSlotIndex(index), ReadLinks(b1, links.next).next))
  }

  function PushFreeRun<T>(b: Block<T>, index: nat): Block<T>
    requires index < |b.slots|
    requires Target(b.slots, ToSlotIndex(b.freeHead))
  {
    MoveFreeRun(b, index, Links(SLOT_NPOS, ToSlotIndex(b.freeHead)))
  }

  // ----- The skipfield

  /** First slot of a dead run among the first `hw` slots. */
  predicate Head(s: seq<nat>, hw: nat, i: int)
    requires hw <= |s|
  {
    0 <= i < hw && s[i] != 0 && (i == 0 || s[i - 1] == 0)
  }

  /** Last slot of a dead run. */
  predicate Tail(s: seq<nat>, hw: nat, j: int)
    requires hw <= |s|
  {
    0 <= j < hw && s[j] != 0 && (j + 1 == hw || s[j + 1] == 0)
  }

  ghost predicate HeadOk(s: seq<nat>, hw: nat, i: int)
    requires hw <= |s|
  {
    Head(s, hw, i) ==>
    && i + s[i] <= hw
    && Tail(s, hw, i + s[i] - 1)
    && s[i + s[i] - 1] == s[i]
    && forall k | i <= k < i + s[i] :: s[k] != 0
  }

  ghost predicate TailOk(s: seq<nat>, hw: nat, j: int)
    requires hw <= |s|
  {
    Tail(s, hw, j) ==>
    && s[j] <= j + 1
    && Head(s, hw, j + 1 - s[j])
    && s[j + 1 - s[j]] == s[j]
  }

  /** Every dead run stores its own length at both ends. */
  ghost predicate RunsOk(s: seq<nat>, hw: nat)
    requires hw <= |s|
  {
    && (forall i :: HeadOk(s, hw, i))
    && (forall j :: TailOk(s, hw, j))
  }

  /** Independent definition: `[a, c)` is a maximal stretch of dead slots. */
  ghost predicate MaximalRun(s: seq<nat>, hw: nat, a: int, c: int)
    requires hw <= |s|
  {
    && 0 <= a < c <= hw
    && (forall k | a <= k < c :: s[k] != 0)
    && (a == 0 || s[a - 1] == 0)
    && (c == hw || s[c] == 0)
  }

  ghost predicate LengthAtBothEnds(s: seq<nat>, hw: nat)
    requires hw <= |s|
  {
    forall a, c :: MaximalRun(s, hw, a, c) ==> s[a] == c - a && s[c - 1] == c - a
  }

  // ----- The free list

  /** `s` with its element at position `p` taken out. */
  function Without<X>(s: seq<X>, p: nat): seq<X>
    requires p < |s|
  {
    s[..p] + s[p + 1..]
  }

  function First(fl: seq<nat>): nat { if fl == [] then NPOS else fl[0] }

  function PrevOf(fl: seq<nat>, p: int): nat
    requires 0 <= p < |fl|
  {
    if p == 0 then SLOT_NPOS else fl[p - 1]
  }

  function NextOf(fl: seq<nat>, p: int): nat
    requires 0 <= p < |fl|
  {
    if p + 1 == |fl| then SLOT_NPOS else fl[p + 1]
  }

  ghost predicate Distinct(fl: seq<nat>) {
    forall p, q | 0 <= p < q < |fl| :: fl[p] != fl[q]
  }

  /** Node `p` of the list `fl` holds the links to its neighbours. */
  ghost predicate NodeOk<T>(slots: seq<Slot<T>>, fl: seq<nat>, p: int) {
    0 <= p < |fl| ==>
      && fl[p] < |slots|
      && slots[fl[p]] == Links(PrevOf(fl, p), NextOf(fl, p))
  }

  /** `fl` is the doubly linked list from `head`, except that node `x` may hold anything. */
  ghost predicate LinkedExcept<T>(slots: seq<Slot<T>>, head: nat, fl: seq<nat>, x: int) {
    && |slots| <= SLOT_NPOS
    && Distinct(fl)
    && head == First(fl)
    && (forall p | 0 <= p < |fl| :: fl[p] < |slots|)
    && (forall p :: p != x ==> NodeOk(slots, fl, p))
  }

  ghost predicate Linked<T>(slots: seq<Slot<T>>, head: nat, fl: seq<nat>) {
    LinkedExcept(slots, head, fl, -1)
  }

  ghost predicate NodesAreHeads(s: seq<nat>, hw: nat, fl: seq<nat>)
    requires hw <= |s|
  {
    && (forall p | 0 <= p < |fl| :: Head(s, hw, fl[p]))
    && (forall i {:trigger i in fl} :: Head(s, hw, i) ==> i in fl)
  }

  // ----- The block invariant and the abstract value

  function Contents<T>(b: Block<T>): map<nat, T> {
    map i: nat | i < |b.slots| && b.slots[i].Live? :: b.slots[i].value
  }

  ghost predicate LivesMatch<T>(b: Block<T>)
    requires Sized(b)
  {
    forall i: nat | i < b.capacity ::
      b.slots[i].Live? <==> (i < b.highWater && b.skip[i] == 0)
  }

  ghost predicate BlockInv<T>(b: Block<T>, fl: seq<nat>) {
    && Sized(b)
    && LivesMatch(b)
    && (b.highWater > 0 ==> b.skip[b.highWater - 1] == 0)
    && RunsOk(b.skip, b.highWater)
    && Linked(b.slots, b.freeHead, fl)
    && NodesAreHeads(b.skip, b.highWater, fl)
    && b.liveCount == |Contents(b)|
  }

  ghost predicate Valid<T>(b: Block<T>) {
    exists fl :: BlockInv(b, fl)
  }

  predicate HasSpace<T>(b: Block<T>) {
    b.freeHead != NPOS || b.highWater < b.capacity
  }

  function Vacant<T>(capacity: nat, skip: seq<nat>, slots: seq<Slot<T>>): Block<T> {
    Block(capacity, skip, slots, 0, 0, NPOS)
  }

  // ----- Operations

  /** Slot chosen by emplace: the first free run's head, else the next fresh slot. */
  function EmplaceIndex<T>(b: Block<T>): nat {
    if b.freeHead != NPOS then b.freeHead else b.highWater
  }

  /** What emplace reads on the reuse path: a node, its neighbours and its run length. */
  ghost predicate EmplaceReadable<T>(b: Block<T>) {
    b.freeHead != NPOS ==>
      && b.freeHead < b.highWater <= |b.skip|
      && NodeClearOf(b, b.freeHead, b.freeHead)
      && 1 <= b.skip[b.freeHead] < b.highWater - b.freeHead
  }

  /** Slot `i` holds a node whose neighbours are nodes other than slot `index`. */
  ghost predicate NodeClearOf<T>(b: Block<T>, i: nat, index: nat) {
    && i < |b.slots|
    && b.slots[i].Links?
    && b.slots[i].previous != index && b.slots[i].next != index
    && Target(b.slots, b.slots[i].previous)
    && Target(b.slots, b.slots[i].next)
  }

  /** What erase reads around `index`: run lengths on either side and the nodes it relinks. */
  ghost predicate EraseReadable<T>(b: Block<T>, index: nat)
    requires Sized(b) && index < b.highWater
  {
    && b.liveCount > 0
    && Target(b.slots, ToSlotIndex(b.freeHead))
    && ToSlotIndex(b.freeHead) != index
    && (index != 0 ==>
          && b.skip[index - 1] <= index
          && (b.skip[index - 1] != 0 ==> NodeClearOf(b, index - b.skip[index - 1], index)))
    && (index + 1 < b.highWater ==>
          && index + b.skip[index + 1] < b.highWater
          && (b.skip[index + 1] != 0 ==> NodeClearOf(b, index + 1, index)))
  }

  predicate IsLive<T>(b: Block<T>, index: nat) {
    index < b.highWater <= |b.skip| && b.skip[index] == 0
  }

  lemma NodeTargets<T>(slots: seq<Slot<T>>, head: nat, fl: seq<nat>, p: nat)
    requires Linked(slots, head, fl) && p < |fl|
    ensures slots[fl[p]] == Links(PrevOf(fl, p), NextOf(fl, p))
    ensures Target(slots, PrevOf(fl, p)) && Target(slots, NextOf(fl, p))
  {
    assert NodeOk(slots, fl, p) && NodeOk(slots, fl, p - 1) && NodeOk(slots, fl, p + 1);
  }

  lemma NodeClear<T>(b: Block<T>, fl: seq<nat>, i: nat, index: nat)
    requires Linked(b.slots, b.freeHead, fl) && i in fl
    requires index < |b.slots| && (index !in fl || index == i)
    ensures NodeClearOf(b, i, index)
  {
    var p :| 0 <= p < |fl| && fl[p] == i;
    NodeTargets(b.slots, b.freeHead, fl, p);
  }

  lemma ReadableEmplace<T>(b: Block<T>, fl: seq<nat>)
    requires BlockInv(b, fl)
    ensures EmplaceReadable(b)
  {
    if b.freeHead != NPOS {
      assert fl[0] == b.freeHead;
      NodeClear(b, fl, b.freeHead, b.freeHead);
      assert HeadOk(b.skip, b.highWater, b.freeHead);
    }
  }

  /** Runs next to a live slot: where they start and where they end. */
  lemma SidesOfLive(s: seq<nat>, hw: nat, i: nat)
    requires i < hw <= |s| && RunsOk(s, hw) && s[i] == 0
    ensures i != 0 ==> s[i - 1] <= i
    ensures i != 0 && s[i - 1] != 0 ==> Head(s, hw, i - s[i - 1]) && s[i - s[i - 1]] == s[i - 1]
    ensures i + 1 < hw ==> i + s[i + 1] < hw
    ensures i + 1 < hw && s[i + 1] != 0 ==>
              Head(s, hw, i + 1) && Tail(s, hw, i + s[i + 1]) && s[i + s[i + 1]] == s[i + 1]
  {
    if i != 0 && s[i - 1] != 0 {
      assert TailOk(s, hw, i - 1);
    }
    if i + 1 < hw && s[i + 1] != 0 {
      assert HeadOk(s, hw, i + 1);
    }
  }

  lemma NodeBesideLive<T>(b: Block<T>, fl: seq<nat>, i: nat, index: nat)
    requires Sized(b) && Linked(b.slots, b.freeHead, fl) && NodesAreHeads(b.skip, b.highWater, fl)
    requires Head(b.skip, b.highWater, i) && IsLive(b, index)
    ensures NodeClearOf(b, i, index)
  {
    assert i in fl;
    NodeClear(b, fl, i, index);
  }

  lemma ReadableErase<T>(b: Block<T>, fl: seq<nat>, index: nat)
    requires BlockInv(b, fl) && IsLive(b, index)
    ensures EraseReadable(b, index)
  {
    assert fl != [] ==> NodeOk(b.slots, fl, 0);
    assert index in Contents(b);
    SidesOfLive(b.skip, b.highWater, index);
    if index != 0 && b.skip[index - 1] != 0 {
      NodeBesideLive(b, fl, index - b.skip[index - 1], index);
    }
    if index + 1 < b.highWater && b.skip[index + 1] != 0 {
      NodeBesideLive(b, fl, index + 1, index);
    }
  }

  /** The commit of an emplace whose construction succeeded. */
  function EmplaceCommit<T>(b: Block<T>, v: T): Block<T>
    requires Sized(b) && HasSpace(b) && EmplaceReadable(b)
  {
    var reuse := b.freeHead != NPOS;
    var index := EmplaceIndex(b);
    var runLength := if reuse then SkipAt(b, index) else 0;
    var links := if reuse then ReadLinks(b, index) else Links(SLOT_NPOS, SLOT_NPOS);
    var b1 := b.(slots := b.slots[index := Live(v)], skip := b.skip[index := 0]);
    var b2 :=
      if reuse then
        if runLength == 1 then
          UnlinkFreeRun(b1, links)
        else
          var remaining := Narrow16(runLength - 1);
          var b2 := b1.(skip := b1.skip[index + 1 := remaining][index + runLength - 1 := remaining]);
          MoveFreeRun(b2, index + 1, links)
      else
        b1.(highWater := b1.highWater + 1);
    b2.(liveCount := b2.liveCount + 1)
  }

  /** Construction threw after scribbling over the slot; a reused node is written back. */
  function EmplaceThrow<T>(b: Block<T>): Block<T>
    requires Sized(b) && HasSpace(b) && EmplaceReadable(b)
  {
    var index := EmplaceIndex(b);
    var b1 := b.(slots := b.slots[index := Raw]);
    if b.freeHead != NPOS then WriteLinks(b1, index, ReadLinks(b, index)) else b1
  }

  /** Destroys the element in slot `index` and returns the slot to the block. */
  function Erase<T>(b: Block<T>, index: nat): Block<T>
    requires Sized(b) && IsLive(b, index) && EraseReadable(b, index)
  {
    var b0 := b.(slots := b.slots[index := Raw], liveCount := b.liveCount - 1);
    if index == b0.highWater - 1 then
      var b1 := b0.(highWater := index);
      if index != 0 && SkipAt(b1, index - 1) != 0 then
        var runStart := index - SkipAt(b1, index - 1);
        UnlinkFreeRun(b1, ReadLinks(b1, runStart)).(highWater := runStart)
      else b1
    else
      var left := if index == 0 then 0 else SkipAt(b0, index - 1);
      var right := SkipAt(b0, index + 1);
      var length := Narrow16(left + right + 1);
      if left == 0 && right == 0 then
        PushFreeRun(b0.(skip := b0.skip[index := 1]), index)
      else if right == 0 then
        b0.(skip := b0.skip[index - left := length][index := length])
      else if left == 0 then
        var links := ReadLinks(b0, index + 1);
        MoveFreeRun(b0.(skip := b0.skip[index := length][index + right := length]), index, links)
      else
        var b1 := b0.(skip := b0.skip[index - left := length][index + right := length][index := 1]);
        UnlinkFreeRun(b1, ReadLinks(b1, index + 1))
  }
}
