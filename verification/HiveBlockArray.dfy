/**
  The block as the container keeps it: a fixed skipfield array and a fixed slot
  array updated in place.  Every method refines the operation of the same name
  on block values.
 */
module HiveBlockArray {
  import opened HiveBlock
  import Proofs = HiveBlockProofs

  class BlockStorage<T> {
    const skip: array<nat>
    const slots: array<Slot<T>>
    const capacity: nat
    var liveCount: nat
    var highWater: nat
    var freeHead: nat

    ghost predicate Shaped()
      reads this
    {
      && skip.Length == slots.Length == capacity
      && 1 <= capacity <= SLOT_NPOS
      && highWater <= capacity
      && skip as object != slots as object
    }

    ghost function View(): Block<T>
      reads this, skip, slots
    {
      Block(capacity, skip[..], slots[..], liveCount, highWater, freeHead)
    }

    ghost predicate Valid()
      reads this, skip, slots
    {
      Shaped() && HiveBlock.Valid(View())
    }

    /** A freshly allocated block; the skipfield bytes are whatever they are. */
    constructor (blockCapacity: nat, garbage: nat -> nat)
      requires 1 <= blockCapacity <= SLOT_NPOS
      ensures Valid() && fresh(skip) && fresh(slots) && capacity == blockCapacity
      ensures Contents(View()) == map[] && highWater == 0 && freeHead == NPOS
    {
      capacity := blockCapacity;
      skip := new nat[blockCapacity](garbage);
      slots := new Slot<T>[blockCapacity](_ => Raw);
      liveCount, highWater, freeHead := 0, 0, NPOS;
      new;
      assert View() == Vacant(blockCapacity, skip[..], slots[..]);
      Proofs.VacantValid(blockCapacity, skip[..], slots[..]);
    }

    method WriteLinks(i: nat, links: Slot<T>)
      requires Shaped() && i < capacity && links.Links?
      modifies slots
      ensures View() == HiveBlock.WriteLinks(old(View()), i, links)
    {
      slots[i] := links;
      assert slots[..] == old(slots[..])[i := links];
    }

    method UnlinkFreeRun(links: Slot<T>)
      requires Shaped() && links.Links?
      requires Target(slots[..], links.previous) && Target(slots[..], links.next)
      modifies this`freeHead, slots
      ensures Shaped()
      ensures View() == HiveBlock.UnlinkFreeRun(old(View()), links)
    {
      if links.previous == SLOT_NPOS {
        freeHead := ToWideIndex(links.next);
      } else {
        WriteLinks(links.previous, Links(slots[links.previous].previous, links.next));
      }
      if links.next != SLOT_NPOS {
        WriteLinks(links.next, Links(links.previous, slots[links.next].next));
      }
    }

    method MoveFreeRun(index: nat, links: Slot<T>)
      requires Shaped() && index < capacity && links.Links?
      requires Target(slots[..], links.previous) && Target(slots[..], links.next)
      modifies this`freeHead, slots
      ensures Shaped()
      ensures View() == HiveBlock.MoveFreeRun(old(View()), index, links)
    {
      WriteLinks(index, links);
      if links.previous == SLOT_NPOS {
        freeHead := index;
      } else {
        WriteLinks(links.previous, Links(slots[links.previous].previous, ToSlotIndex(index)));
      }
      if links.next != SLOT_NPOS {
        WriteLinks(links.next, Links(ToSlotIndex(index), slots[links.next].next));
      }
    }

    method PushFreeRun(index: nat)
      requires Shaped() && index < capacity && Target(slots[..], ToSlotIndex(freeHead))
      modifies this`freeHead, slots
      ensures Shaped()
      ensures View() == HiveBlock.PushFreeRun(old(View()), index)
    {
      MoveFreeRun(index, Links(SLOT_NPOS, ToSlotIndex(freeHead)));
    }

    /** Commit on the reuse path when the run is a single slot: its node goes away. */
    method TakeWholeRun(v: T)
      requires Shaped() && freeHead != NPOS && EmplaceReadable(View()) && skip[freeHead] == 1
      modifies this, skip, slots
      ensures Shaped()
      ensures View() == EmplaceCommit(old(View()), v)
    {
      var index := freeHead;
      var links := slots[index];
      slots[index] := Live(v);
      skip[index] := 0;
      assert View() == old(View()).(slots := old(slots[..])[index := Live(v)], skip := old(skip[..])[index := 0]);
      UnlinkFreeRun(links);
      liveCount := liveCount + 1;
    }

    /** Commit on the reuse path of a longer run: its node moves to the next slot. */
    method TakeFirstOfRun(v: T)
      requires Shaped() && freeHead != NPOS && EmplaceReadable(View()) && skip[freeHead] > 1
      modifies this, skip, slots
      ensures Shaped()
      ensures View() == EmplaceCommit(old(View()), v)
    {
      hide HiveBlock.MoveFreeRun;
      var index := freeHead;
      var runLength := skip[index];
      var links := slots[index];
      slots[index] := Live(v);
      skip[index] := 0;
      var remaining := Narrow16(runLength - 1);
      skip[index + 1] := remaining;
      skip[index + runLength - 1] := remaining;
      assert slots[..] == old(slots[..])[index := Live(v)];
      assert skip[..] == old(skip[..])[index := 0][index + 1 := remaining][index + runLength - 1 := remaining];
      MoveFreeRun(index + 1, links);
      liveCount := liveCount + 1;
    }

    /** Commit on the append path. */
    method AppendSlot(v: T)
      requires Shaped() && freeHead == NPOS && highWater < capacity
      modifies this, skip, slots
      ensures Shaped()
      ensures View() == EmplaceCommit(old(View()), v)
    {
      slots[highWater] := Live(v);
      skip[highWater] := 0;
      highWater := highWater + 1;
      liveCount := liveCount + 1;
    }

    /** Construction wrote over the slot and threw: a reused node is restored. */
    method AbandonEmplace()
      requires Shaped() && HasSpace(View()) && EmplaceReadable(View())
      modifies slots
      ensures View() == EmplaceThrow(old(View()))
    {
      var index := if freeHead != NPOS then freeHead else highWater;
      var links := slots[index];
      slots[index] := Raw;
      assert slots[..] == old(slots[..])[index := Raw];
      if freeHead != NPOS {
        WriteLinks(index, links);
      }
    }

    /**
      The in-block part of emplace.  `throws` says whether the element's
      constructor fails after having overwritten the slot.
     */
    method Emplace(v: T, throws: bool) returns (index: nat)
      requires Valid() && HasSpace(View())
      modifies this, skip, slots
      ensures Valid()
      ensures index == EmplaceIndex(old(View())) < capacity
      ensures index !in old(Contents(View()))
      ensures Contents(View()) == if throws then old(Contents(View())) else old(Contents(View()))[index := v]
      ensures throws && old(freeHead) != NPOS ==> View() == old(View())
    {
      index := if freeHead != NPOS then freeHead else highWater;
      Proofs.EmplaceKeeps(View(), v);
      Proofs.EmplaceThrowKeeps(View());
      if throws {
        AbandonEmplace();
      } else if freeHead != NPOS {
        if skip[freeHead] == 1 {
          TakeWholeRun(v);
        } else {
          TakeFirstOfRun(v);
        }
      } else {
        AppendSlot(v);
      }
    }

    /** Erase of the last initialised slot: the high-water mark falls past any run below it. */
    method TrimTail(index: nat)
      requires Shaped() && IsLive(View(), index) && EraseReadable(View(), index) && index == highWater - 1
      modifies this, skip, slots
      ensures Shaped()
      ensures View() == HiveBlock.Erase(old(View()), index)
    {
      slots[index] := Raw;
      liveCount := liveCount - 1;
      assert View() == Proofs.Destroyed(old(View()), index);
      highWater := index;
      if index != 0 && skip[index - 1] != 0 {
        var runStart := index - skip[index - 1];
        UnlinkFreeRun(slots[runStart]);
        highWater := runStart;
      }
    }

    /** Erase between live neighbours, or after a run: no node moves except a pushed one. */
    method JoinLeft(index: nat)
      requires Shaped() && IsLive(View(), index) && EraseReadable(View(), index)
      requires index + 1 < highWater && skip[index + 1] == 0
      modifies this, skip, slots
      ensures Shaped()
      ensures View() == HiveBlock.Erase(old(View()), index)
    {
      slots[index] := Raw;
      assert slots[..] == old(slots[..])[index := Raw];
      liveCount := liveCount - 1;
      var left := if index == 0 then 0 else skip[index - 1];
      if left == 0 {
        skip[index] := 1;
        assert skip[..] == old(skip[..])[index := 1];
        PushFreeRun(index);
      } else {
        var length := Narrow16(left + 1);
        skip[index - left] := length;
        skip[index] := length;
        assert skip[..] == old(skip[..])[index - left := length][index := length];
      }
    }

    /** Erase between a live slot and a run: the run's node moves here. */
    method JoinRight(index: nat)
      requires Shaped() && IsLive(View(), index) && EraseReadable(View(), index)
      requires index + 1 < highWater && skip[index + 1] != 0 && (index == 0 || skip[index - 1] == 0)
      modifies this, skip, slots
      ensures Shaped()
      ensures View() == HiveBlock.Erase(old(View()), index)
    {
      slots[index] := Raw;
      assert slots[..] == old(slots[..])[index := Raw];
      liveCount := liveCount - 1;
      var right := skip[index + 1];
      var length := Narrow16(right + 1);
      var links := slots[index + 1];
      skip[index] := length;
      skip[index + right] := length;
      assert skip[..] == old(skip[..])[index := length][index + right := length];
      MoveFreeRun(index, links);
    }

    /** Erase between two runs: they become one, kept under the left run's node. */
    method JoinBoth(index: nat)
      requires Shaped() && IsLive(View(), index) && EraseReadable(View(), index)
      requires 0 < index && index + 1 < highWater && skip[index + 1] != 0 && skip[index - 1] != 0
      modifies this, skip, slots
      ensures Shaped()
      ensures View() == HiveBlock.Erase(old(View()), index)
    {
      hide HiveBlock.UnlinkFreeRun;
      slots[index] := Raw;
      assert slots[..] == old(slots[..])[index := Raw];
      liveCount := liveCount - 1;
      var left, right := skip[index - 1], skip[index + 1];
      var length := Narrow16(left + right + 1);
      skip[index - left] := length;
      skip[index + right] := length;
      skip[index] := 1;
      assert skip[..] == old(skip[..])[index - left := length][index + right := length][index := 1];
      UnlinkFreeRun(slots[index + 1]);
    }

    method Erase(index: nat)
      requires Valid() && IsLive(View(), index)
      modifies this, skip, slots
      ensures Valid()
      ensures index in old(Contents(View()))
      ensures Contents(View()) == old(Contents(View())) - {index}
    {
      Proofs.EraseKeeps(View(), index);
      if index == highWater - 1 {
        TrimTail(index);
      } else if skip[index + 1] == 0 {
        JoinLeft(index);
      } else if index == 0 || skip[index - 1] == 0 {
        JoinRight(index);
      } else {
        JoinBoth(index);
      }
    }
  }
}
