# Forge: a verified model of its stateful core

This project models seven components of the Forge C++ library and proves what their comments
and tests promise.

- **std::hive** (`Hive*.dfy`, `HeapOrder.dfy`). A block is a skip array in which dead runs carry
  their length at both ends, slots that hold an element, free-list links or raw bytes, a
  high-water mark and a live count (`HiveBlock`, `HiveBlockProofs`; `HiveBlockArray` is the same
  on arrays updated in place). A container (`HiveModel`, `HiveContainer`) is a storage of blocks
  under their addresses, an active list, a reserved chain and an available list; `HiveLists`
  holds the linked lists, `HiveTraversal` and `HiveElements` the iterators, `HiveAlgorithms`
  erase and unique, `HivePlanner` and `HiveCapacity` the capacity planner and trimming,
  `HiveRebuild` shrink and reshape, `HiveSplice` splice, `HiveSort` the heap sort, and
  `HiveOutcomes` what placement, filtering and shrinking come to.
- **forge::strand** (`Strand*.dfy`), **forge::bounded_channel** (`Channel*.dfy`,
  `RecordQueue.dfy`), **forge::timer_context** (`Timer*.dfy`) and the **counting scopes**
  (`CountingScope*.dfy`). Each is a state machine whose atomic steps are the critical sections,
  atomic exchanges and completion calls of the source, taken by arbitrary threads in any order;
  completions run outside the lock, so any step may happen while one runs. Histories kept in the
  state (enqueued, submitted, received, called) are what the theorems speak about. Beside each
  machine stand laws that tell each outcome from the steps taken before it (`StrandLaws`,
  `ChannelOutcomes`, `ChannelClosing`, `TimerOutcomes`, `CountingScopeLaws`), and the object with
  its fields, queues and loops, whose methods are proved to do to the object what the
  corresponding step does to the state.
- **Padded layouts and submdspan** (`Layout`, `PaddedLayout`, `LayoutMeaning`, `Submdspan`,
  `SubmdspanMeaning`, `SubmdspanBranches`).
  A mapping is its extents and strides; ranks are sequence lengths; a slice is an index, the full
  extent, a unit-stride range or a strided range, and what it selects is told from its fields.

Allocation failure, construction failure, the clock, stop requests and the scheduler are
parameters or steps: every theorem holds whatever they do. In the machines a `Sound` or `Known`
clause on runs only makes the step functions well defined; the step lemmas prove that it always
holds.

Three promises turned out not to hold as first put, and are replaced by what is exact.

- A strand may begin one value completion after shutdown: the record whose turn had been taken
  before (`StrandProofs.ValueAfterClose`). `LateValueExactly` gives the condition at the moment of
  closing: it happens if and only if a turn with a value is taken then; `QuietCloseIsFinal` is the
  promise without it.
- A send may stay queued although the channel's buffer has a free slot, because a receive promotes
  one send only and that promotion may fail to allocate (`ChannelLaws.WaitsWithRoom`).
  `WaitsWithRoomExactly` gives the condition. Order and conservation are unaffected.
- `is_exhaustive` of a padded mapping answers no for some mappings that use every place of their
  span: those with a single column (`LayoutMeaning.OntoButNotExhaustive`). `OntoExactly` gives the
  condition.

Two branches turn out to be dead: the one of `close` that completes a detached receiver with a
prepared value (`ChannelLaws.NoPreparedValueWaits`), and the terminating branch of join start
(`CountingScope.NeverTerminates`).

## Model

| member | source | states |
|---|---|---|
| `HiveBlockProofs.RunsOkMeansMaximalRuns` | backport/cpp26/hive.hpp:1790-1806 | The pointwise run condition used throughout holds iff every maximal dead run carries its length at both ends and ends before the high-water mark. |
| `HiveBlockProofs.EmplaceKeeps` | backport/cpp26/hive.hpp:1272-1316 | Reuse of a one-slot run, reuse of a longer run, and append each keep the block invariant, read only initialised bytes, and add exactly one element at a slot that was not live; the uint16 narrowing loses nothing. |
| `HiveBlockProofs.EmplaceThrowKeeps` | backport/cpp26/hive.hpp:1281-1291 | A constructor that fails after overwriting the slot leaves the invariant and the contents alone; on reuse every byte is restored. |
| `HiveBlockProofs.EraseKeeps` | backport/cpp26/hive.hpp:1424-1468 | Tail trim (with and without an adjacent run), isolated hole, merge left, merge right and merge both each keep the block invariant and remove exactly the given element. |
| `HiveBlockProofs.SpaceIffNotFull` | backport/cpp26/hive.hpp:1834-1835 | The constant-time availability test is exact: there is space iff fewer elements live than the block has slots. |
| `HiveBlockProofs.VacantValid` | backport/cpp26/hive.hpp:541-545 | A block with high-water mark zero and no free node is valid and empty whatever its skip array holds. |
| `HiveBlockArray.BlockStorage.UnlinkFreeRun` | backport/cpp26/hive.hpp:627-641 | In-place unlinking of a free-list node does what the value-level update does. |
| `HiveBlockArray.BlockStorage.MoveFreeRun` | backport/cpp26/hive.hpp:643-658 | In-place relocation of a free-list node does what the value-level update does. |
| `HiveBlockArray.BlockStorage.Emplace` | backport/cpp26/hive.hpp:1274-1308 | On real arrays: one more element at a slot that was not live, or, when the constructor throws, the same contents. |
| `HiveBlockArray.BlockStorage.Erase` | backport/cpp26/hive.hpp:1435-1468 | On real arrays: the contents lose exactly the given index and the block stays valid. |
| `HiveOutcomes.FillsHolesFirst` | backport/cpp26/hive.hpp:1274-1307 | An element goes into a dead slot below the high-water mark while there is one; the mark rises, by one, iff the prefix has no hole. |
| `HiveOutcomes.FreedSlotIsNext` | backport/cpp26/hive.hpp:660-663 | The slot of an element erased between two live ones is the next one filled. |
| `HiveModelProofs.EmplaceAvailableKeeps` | backport/cpp26/hive.hpp:1272-1316 | Emplace into an available block keeps the whole-container invariant (partition into active and reserved, exact available list, increasing orders, exact size and capacity sums) and adds one element. |
| `HiveModelProofs.EmplaceReservedKeeps` | backport/cpp26/hive.hpp:1318-1335 | The same for the first element of a reserved block. |
| `HiveModelProofs.EmplaceAllocatedKeeps` | backport/cpp26/hive.hpp:1375-1388 | The same for the first element of a freshly allocated block. |
| `HiveModelProofs.ThrowKeeps` | backport/cpp26/hive.hpp:1281-1291 | A throwing construction in an available block changes no element and keeps the invariant. |
| `HiveModelProofs.ReservedThrowKeeps` | backport/cpp26/hive.hpp:1318-1321 | A throwing construction in a reserved block changes no element and keeps the invariant. |
| `HiveModelProofs.EraseAtKeeps` | backport/cpp26/hive.hpp:1424-1487 | Erase keeps the container invariant, whether the block stays or is retired, and removes exactly one element; every other keeps its location and value. |
| `HiveLists.DList.PushFront` | backport/cpp26/hive.hpp:547-556 | Front insertion into a doubly linked list is prepending to its sequence. |
| `HiveLists.DList.Append` | backport/cpp26/hive.hpp:576-588 | Appending at the cached tail is appending to the sequence. |
| `HiveLists.DList.Remove` | backport/cpp26/hive.hpp:558-574 | Unlinking a node anywhere is removing one position of the sequence. |
| `HiveLists.DList.Adopt` | backport/cpp26/hive.hpp:1575-1585 | Hanging one chain off the tail of another concatenates the two sequences. |
| `HiveLists.SList.PopFront` | backport/cpp26/hive.hpp:1183-1188 | Popping the reserved chain drops the head of its sequence. |
| `HiveLists.SList.RemoveAfter` | backport/cpp26/hive.hpp:1255-1265 | Unlinking through the previous link removes one position of the sequence. |
| `HiveContainer.Container.AvailableRemove` | backport/cpp26/hive.hpp:558-574 | Removing a block from the available list is guarded by its flag and leaves list and flags in step. |
| `HiveContainer.Container.ActiveRemove` | backport/cpp26/hive.hpp:590-605 | Removing a block from the active list keeps the cached tail right. |
| `HiveContainer.Container.Emplace` | backport/cpp26/hive.hpp:1270-1389 | Over available, reserved and new blocks: success adds one element at a location that held none and invalidates end; every failure (length, allocation, construction) changes no element and keeps end; the choice of block is the source order, a block joins the active list only as its new last, and the growth is the geometric one. |
| `HiveContainer.Container.EmplaceInNewBlock` | backport/cpp26/hive.hpp:1337-1389 | Growth: a length error exactly when no legal block fits under the maximum, otherwise allocation and construction failures as they occur, with strong exception safety; the new block doubles the capacity unless the minimum, the block maximum or the size maximum intervenes. |
| `HiveContainer.Container.Erase` | backport/cpp26/hive.hpp:1424-1487 | Removes exactly the given element, returns its successor, and advances the end epoch exactly when the back was erased; a block losing its only element goes from the active and available lists to the front of the reserved one, any other to the front of the available list unless it is there. |
| `HiveContainer.Container.Increment` | backport/cpp26/hive.hpp:291-309 | The jump-based increment on the object is the specified successor. |
| `HiveContainer.Container.Decrement` | backport/cpp26/hive.hpp:317-342 | The jump-based decrement on the object, including from end, is the specified predecessor. |
| `HiveTraversal.BeginIsFirst` | backport/cpp26/hive.hpp:291-299 | begin is the first element of the traversal, or end when there is none. |
| `HiveTraversal.NextIsSuccessor` | backport/cpp26/hive.hpp:291-309 | Jumping over skip counts steps to the next live element in block-then-index order, and to end after the last. |
| `HiveTraversal.PrevIsPredecessor` | backport/cpp26/hive.hpp:317-342 | Jumping back steps to the previous live element, and from end to the last. |
| `HiveTraversal.PrevUndoesNext` | backport/cpp26/hive.hpp:291-342 | Decrement undoes increment at every element, across block boundaries and at end. |
| `HiveElements.ComparisonIsVisitOrder` | backport/cpp26/hive.hpp:361-371 | A live element is reached from another by one or more increments iff the comparison of block order numbers, then indices, puts it later. |
| `HiveTraversal.TraversalUnique` | backport/cpp26/hive.hpp:576-588 | Order numbers and live slots determine one traversal only. |
| `HiveElements.ScanIsTraversal` | backport/cpp26/hive.hpp:1775-1806 | A naive scan of every slot of every active block visits the same elements in the same order as the jumping iterator. |
| `HiveElements.SizeIsLength` | backport/cpp26/hive.hpp:1844 | The size counter is the number of elements visited. |
| `HiveElements.EraseTraversal` | backport/cpp26/hive.hpp:1424-1487 | Erasing removes one position of the element sequence and nothing else. |
| `HiveElements.EmplaceTraversal` | backport/cpp26/hive.hpp:1270-1389 | Emplacing inserts one position into the element sequence and moves nothing else. |
| `HiveOutcomes.NewBlockIsLast` | backport/cpp26/hive.hpp:1318-1388 | The first element of a block that has just become active comes last in the traversal. |
| `HiveAlgorithms.EraseRange` | backport/cpp26/hive.hpp:1489-1505 | Range erase removes exactly [first, last) and terminates although erasing may retire blocks and move end. |
| `HiveAlgorithms.EraseIf` | backport/cpp26/hive.hpp:1946-1957 | erase_if leaves exactly the elements that fail the predicate, at their locations, and returns the size difference. |
| `HiveAlgorithms.KeptIsFilter` | backport/cpp26/hive.hpp:1946-1957 | The values erase_if leaves are the filtered value sequence. |
| `HiveOutcomes.FilterMeaning` | backport/cpp26/hive.hpp:1946-1957 | Those values are the sequence at exactly the positions whose value fails the predicate, in increasing order. |
| `HiveAlgorithms.Unique` | backport/cpp26/hive.hpp:1617-1636 | unique leaves exactly the elements not related to the last kept one and returns the size difference. |
| `HiveAlgorithms.RepresentativesAreUniqued` | backport/cpp26/hive.hpp:1617-1636 | The values unique leaves are those of the recursive definition on value sequences. |
| `HiveOutcomes.UniquedMeaning` | backport/cpp26/hive.hpp:1617-1636 | Those values are the sequence at increasing positions starting with the first; each kept one differs from the kept one before it, and everything between two kept ones is related to the earlier. |
| `HivePlanner.PlanSound` | backport/cpp26/hive.hpp:757-776 | A plan covers the request within the maximum and its total can be split into that many legal blocks. |
| `HivePlanner.PlanComplete` | backport/cpp26/hive.hpp:757-776 | If any list of legal block capacities reaches the request within the maximum, planning succeeds. |
| `HivePlanner.PlanOptimal` | backport/cpp26/hive.hpp:757-776 | No legal list that covers the deficit has fewer blocks or a smaller sum. |
| `HivePlanner.SplitPlan` | backport/cpp26/hive.hpp:778-807 | The allocated capacities are as many as planned, each legal, and sum to the planned total; of any two, the earlier is maximal or the later minimal. |
| `HiveCapacity.ReserveBlocks` | backport/cpp26/hive.hpp:778-807 | Executing a plan adds reserved blocks only, of capacities largest first, linked latest first; an allocation failure keeps those already linked. |
| `HiveCapacity.Reserve` | backport/cpp26/hive.hpp:1143-1153 | Nothing to do up to the current capacity; otherwise length error iff there is no plan, out of memory iff the plan needs more blocks than can be had, else exactly the planned capacity is added; elements, active blocks and end are untouched throughout. |
| `HiveCapacity.TrimCapacity` | backport/cpp26/hive.hpp:1178-1189 | Every reserved block goes, the capacity is that of the active blocks, and nothing else changes. |
| `HiveCapacity.TrimCapacityTo` | backport/cpp26/hive.hpp:1191-1203 | Reserved blocks go from the front as long as n slots remain; it stops only when the next one would cut below n, and what is left is a suffix. |
| `HiveRebuild.AppendMoveTo` | backport/cpp26/hive.hpp:1891-1898 | The destination ends up with the source values in the source order, without allocating. |
| `HiveRebuild.ShrinkToFit` | backport/cpp26/hive.hpp:1155-1176 | Same values in the same order under the same limits; no reserved block survives; it rebuilds iff a plan for the size takes less than the active blocks have and its blocks can be allocated, then with exactly the planned capacity; running out of memory leaves every element in place. |
| `HiveOutcomes.ShrinkIsLeast` | backport/cpp26/hive.hpp:1155-1176 | The capacity a successful shrink leaves is at most that of any list of legal blocks that holds the elements. |
| `HiveRebuild.DropMisfits` | backport/cpp26/hive.hpp:1253-1266 | Exactly the reserved blocks outside the new limits are released. |
| `HiveRebuild.Reshape` | backport/cpp26/hive.hpp:1228-1267 | Elements move iff some active block misfits, into exactly the planned capacity; it fails iff the limits are invalid, there is no plan, or its blocks cannot be allocated, and then changes nothing; otherwise exactly the reserved misfits go; afterwards every block is within the new limits and the element sequence is the same. |
| `HiveSplice.MeasureFit` | backport/cpp26/hive.hpp:1545-1552 | The validation pass decides whether all source blocks fit and sums their capacity. |
| `HiveSplice.DestinationKeeps` | backport/cpp26/hive.hpp:1575-1612 | The joined lists satisfy the container invariant, with orders strictly increasing along the new active list. |
| `HiveSplice.SpliceTraversal` | backport/cpp26/hive.hpp:1575-1612 | The destination sequence is its own followed by the source sequence, locations and values kept. |
| `HiveSplice.Splice` | backport/cpp26/hive.hpp:1532-1612 | On success sequences concatenate and sizes and capacities move exactly; it fails iff a source block is outside the limits or a needed control block cannot be allocated, and then changes neither container. |
| `HiveSplice.SpliceByAdoption` | backport/cpp26/hive.hpp:1559-1569 | The shortcut that moves the whole control block has the same outcome. |
| `HeapOrder.SiftSwap` | backport/cpp26/hive.hpp:1663-1680 | Swapping with the larger child moves the one heap violation down a level. |
| `HeapOrder.RootIsMax` | backport/cpp26/hive.hpp:1686-1689 | The root of a heap is a maximum. |
| `HeapOrder.ExtractKeepsSorted` | backport/cpp26/hive.hpp:1686-1689 | Swapping the root to the end extends the sorted suffix by one. |
| `HiveSort.Positions` | backport/cpp26/hive.hpp:1655-1657 | The position table is the traversal. |
| `HiveSort.SiftDown` | backport/cpp26/hive.hpp:1663-1680 | Restores the heap, moves nothing outside its range, terminates, and every state on the way is a permutation. |
| `HiveSort.BuildHeap` | backport/cpp26/hive.hpp:1682-1685 | The first loop leaves a heap over the same multiset of values. |
| `HiveSort.ExtractAll` | backport/cpp26/hive.hpp:1686-1689 | The second loop leaves the values sorted. |
| `HiveSort.Sort` | backport/cpp26/hive.hpp:1639-1690 | For any strict weak order the traversal is unchanged and its values are a sorted permutation of what they were. |
| `StrandProofs.StepInv` | include/forge/strand.hpp:209-487 | Every lock section, completion and launch step keeps the strand invariant. |
| `StrandProofs.SerialInOrder` | include/forge/strand.hpp:209-252 | In every run at most one record is being completed, and the completions begun are a prefix of the enqueue order. |
| `StrandProofs.WaitMeansDone` | include/forge/strand.hpp:378-382 | When the wait predicate holds, every record enqueued so far has been completed exactly once, in order. |
| `StrandProofs.NothingStranded` | include/forge/strand.hpp:337-363 | When no thread has anything left to do, the queue and the deferred chain are empty and wait returns. |
| `StrandProofs.RunningMeansOneToken` | include/forge/strand.hpp:293-319 | While open, running holds iff there is a pending launch, outstanding runner, active turn or raised relaunch flag, and never two of them. |
| `StrandProofs.RelaunchNotLost` | include/forge/strand.hpp:450-465 | The relaunch trampoline never overwrites a raised flag, so no launch is lost with an inline scheduler. |
| `StrandProofs.ValueAfterClose` | include/forge/strand.hpp:288-335 | A run in which a value completion begins after shutdown: the turn had been taken before. |
| `StrandProofs.AtMostOneLateValue` | include/forge/strand.hpp:288-335 | The counter of value completions begun on a closed strand never exceeds one and is zero while open; LateValuesCounted says what it counts. |
| `StrandProofs.LateValueExactly` | include/forge/strand.hpp:259-335 | At every state after the closing step, a value completion has begun since or is about to iff a turn with a value was taken when the strand closed. |
| `StrandProofs.QuietCloseIsFinal` | include/forge/strand.hpp:259-335 | If no value turn was taken when the strand closed, no value completion ever begins afterwards. |
| `StrandProofs.TurnsTakenOpen` | include/forge/strand.hpp:308-318 | A turn is only ever taken while the strand is open, and takes the head of the queue. |
| `StrandProofs.StaysClosed` | include/forge/strand.hpp:259-286 | A closed strand stays closed. |
| `StrandLaws.EverySubmissionLogged` | include/forge/strand.hpp:209-252 | The enqueue log holds exactly the records handed to enqueue, in order, on an open strand and a closed one. |
| `StrandLaws.ClosedExactly` | include/forge/strand.hpp:225-286 | A strand is closed iff a shutdown, a failed launch or a failed growth of the queue came before. |
| `StrandLaws.ValueOnlyIfAllowed` | include/forge/strand.hpp:326-335 | In every run a completion with a value belongs to a record that is not stop-only. |
| `StrandLaws.OpenKindExactly` | include/forge/strand.hpp:326-335 | A completion that begins on an open strand is a value iff its record is not stop-only. |
| `StrandLaws.LateValuesCounted` | include/forge/strand.hpp:326-335 | The late-value counter is the number of value completions in the log that began from a closed state. |
| `StrandLaws.KindAfterClosing` | include/forge/strand.hpp:308-335 | Of the completions that begin after a closed state all are stopped, except the very next one iff a turn with a value had been taken by then. |
| `StrandLaws.EnqueuedTooLate` | include/forge/strand.hpp:216-224 | A record enqueued on a closed strand completes with stopped. |
| `StrandLaws.NoNestedLaunch` | include/forge/strand.hpp:450-465 | In every run a thread has at most one launch call under way, and only inside its launch loop. |
| `StrandLaws.LaunchOutcome` | include/forge/strand.hpp:450-487 | A launch from within the own loop raises the relaunch flag and any other enters the loop; the bottom of the loop lowers a raised flag for one more call or leaves; a failed launch closes the strand and is over. |
| `StrandState.Shared.DeferQueue` | include/forge/strand.hpp:395-401 | The loop moves the whole queue, in order, to the end of the deferred chain. |
| `StrandState.Shared.Enqueue` | include/forge/strand.hpp:209-252 | The critical section, including failure to grow the queue, does what the enqueue step does. |
| `StrandState.Shared.Shutdown` | include/forge/strand.hpp:259-286 | The critical section does what the shutdown step does. |
| `StrandState.Shared.BeginRun` | include/forge/strand.hpp:288-319 | First critical section of run_one: the record or batch its thread then completes is the one the step hands out. |
| `StrandState.Shared.EndRun` | include/forge/strand.hpp:337-357 | Second critical section of run_one does what the end-of-turn step does. |
| `StrandState.Shared.RefillBatch` | include/forge/strand.hpp:432-445 | The dry batch takes what arrived meanwhile or steps down, as the step does. |
| `StrandState.CompleteBatch` | include/forge/strand.hpp:425-430 | The batch loop completes every record once, in order, with stopped. |
| `PaddedLayout.LeastMultipleIsLeast` | backport/cpp26/mdspan_padded.hpp:50-60 | The rounded value is a multiple of the alignment, not below the value, and below every other such multiple. |
| `PaddedLayout.StrideRepresentableExact` | backport/cpp26/mdspan_padded.hpp:71-82 | The static check holds iff the padded stride fits the limit. |
| `PaddedLayout.ProductRepresentable` | backport/cpp26/mdspan_padded.hpp:84-103 | The division-based loop answers iff the exact product of the factors fits the limit, zero factors included. |
| `PaddedLayout.PaddedInjective` | backport/cpp26/mdspan_padded.hpp:338-388 | Left and right padded mappings of any rank send distinct indices to distinct offsets. |
| `Layout.AtBelowSpan` | backport/cpp26/mdspan_padded.hpp:324-345 | Every in-range index maps below required_span_size. |
| `LayoutMeaning.LeftStrides` | backport/cpp26/mdspan_padded.hpp:371-388 | Left and left padded strides: one, then the first extent or the padded stride, then each the previous times its extent. |
| `LayoutMeaning.RightStrides` | backport/cpp26/mdspan_padded.hpp:674-691 | The mirrored recurrence for right and right padded strides. |
| `LayoutMeaning.LeftPaddedStrideOf` | backport/cpp26/mdspan_padded.hpp:371-388 | The loop of stride(r) computes that stride. |
| `LayoutMeaning.MovesByStride` | backport/cpp26/mdspan_padded.hpp:335-345 | Index zero maps to zero and a step along dimension r moves by exactly stride(r). |
| `LayoutMeaning.SpanIsTight` | backport/cpp26/mdspan_padded.hpp:324-333 | required_span_size is zero without elements and otherwise one more than the place of some index. |
| `LayoutMeaning.RequiredSpanSize` | backport/cpp26/mdspan_padded.hpp:324-333 | The loops compute it. |
| `PaddedLayout.ExhaustiveIsOnto` | backport/cpp26/mdspan_padded.hpp:363-370 | is_exhaustive implies that every offset below required_span_size is hit. |
| `PaddedLayout.PaddingLeavesGap` | backport/cpp26/mdspan_padded.hpp:363-370 | For left and right padding, when the padded stride exceeds the extent and another extent is above one, some offset below the span is never hit. |
| `LayoutMeaning.OntoExactly` | backport/cpp26/mdspan_padded.hpp:363-369 | A padded mapping with elements hits every offset below its span iff is_exhaustive holds or every extent but the padded one is one. |
| `LayoutMeaning.OntoButNotExhaustive` | backport/cpp26/mdspan_padded.hpp:363-369 | A mapping that hits every offset although is_exhaustive answers no. |
| `Submdspan.CanonicalRangeExact` | backport/cpp26/submdspan.hpp:889-935 | The canonical form of [first, last) with a stride selects exactly first, first + stride, ... below last. |
| `SubmdspanMeaning.SurvivorsExactly` | backport/cpp26/submdspan.hpp:531-546 | The inverse rank map lists exactly the dimensions whose slice is not an index, in increasing order. |
| `SubmdspanMeaning.SliceMeaning` | backport/cpp26/submdspan.hpp:380-472 | From the fields of the slice alone: the source coordinate of index i is offset + i along a unit range, offset + i * stride along a strided one, i along a full dimension, and the index of an index slice; the sub-extent is the count of the range or the whole extent. |
| `SubmdspanMeaning.StrideMeaning` | backport/cpp26/submdspan.hpp:548-584 | A stride of the generic result is the source stride, times the slice stride iff the slice is a range of more than one element. |
| `SubmdspanMeaning.OffsetExactly` | backport/cpp26/submdspan.hpp:1046-1054 | The offset is the place of the first coordinates of all slices, or the span size iff some slice begins at its extent. |
| `SubmdspanMeaning.ExpandedIsSelected` | backport/cpp26/submdspan.hpp:380-472 | Every index of the result stands for a source index that every slice selects. |
| `SubmdspanMeaning.SelectedIsExpanded` | backport/cpp26/submdspan.hpp:380-472 | Conversely every source index selected in all dimensions is that of some index within the sub-extents. |
| `SubmdspanMeaning.ExpandInjective` | backport/cpp26/submdspan.hpp:380-472 | No two indices of the result stand for the same source index. |
| `Submdspan.BuildIsRecursion` | backport/cpp26/submdspan.hpp:531-584 | Strides gathered through the inverse rank map and the stride factors are those of the recursive definition. |
| `Submdspan.ExpandLinear` | backport/cpp26/submdspan.hpp:548-584 | A strided sum over the sliced index splits into the offset of the first element and a sum over sub-strides. |
| `Submdspan.ElementLaw` | backport/cpp26/submdspan.hpp:1036-1281 | Any result whose strides agree with the generic ones satisfies dst(i) + offset == src(x), where x is the source index i stands for; SubmdspanMeaning says which one that is. |
| `Submdspan.SpanLaw` | backport/cpp26/submdspan.hpp:1036-1281 | offset + dst.required_span_size never exceeds src.required_span_size, also for empty and out-of-bounds slices. |
| `SubmdspanBranches.CheckLeftPreserving` | backport/cpp26/submdspan.hpp:675-700 | The loop decides the layout-left-preserving pattern. |
| `SubmdspanBranches.CheckRightPreserving` | backport/cpp26/submdspan.hpp:702-727 | The loop decides the layout-right-preserving pattern. |
| `SubmdspanBranches.LeftPaddedIndex` | backport/cpp26/submdspan.hpp:729-766 | The loop finds the dimension that becomes the padded stride, or reports that there is none. |
| `SubmdspanBranches.RightPaddedIndex` | backport/cpp26/submdspan.hpp:768-802 | The mirrored search for right layouts. |
| `SubmdspanBranches.LeftKeeps` | backport/cpp26/submdspan.hpp:1061-1064 | Where the left-preserving check succeeds, the left result has the generic strides. |
| `SubmdspanBranches.RightKeeps` | backport/cpp26/submdspan.hpp:1115-1118 | Where the right-preserving check succeeds, the right result has the generic strides. |
| `SubmdspanBranches.LeftPads` | backport/cpp26/submdspan.hpp:1065-1074 | Where a left padding index exists, the padded result has the generic strides. |
| `SubmdspanBranches.RightPads` | backport/cpp26/submdspan.hpp:1119-1128 | Where a right padding index exists, the padded result has the generic strides. |
| `SubmdspanBranches.SubmdspanLeft` | backport/cpp26/submdspan.hpp:1036-1086 | For every rank and slice list the result satisfies the element law and the span law, has the common offset, and has the layout the pattern of the slices calls for: left when preserved, left padded with the rounded source stride where a padded dimension exists, else strided with the generic strides. |
| `SubmdspanBranches.SubmdspanRight` | backport/cpp26/submdspan.hpp:1092-1140 | The same for a right source, mirrored. |
| `SubmdspanBranches.SubmdspanStrided` | backport/cpp26/submdspan.hpp:1146-1175 | The same laws for a strided source; the result is strided with the generic strides. |
| `SubmdspanBranches.SubmdspanLeftPadded` | backport/cpp26/submdspan.hpp:1182-1230 | The same for a left padded source; one contiguous surviving dimension becomes left. |
| `SubmdspanBranches.SubmdspanRightPadded` | backport/cpp26/submdspan.hpp:1236-1281 | The same for a right padded source, mirrored. |
| `RecordQueue.Queue.PushBack` | include/forge/channel.hpp:93-101 | Appending to the intrusive list is appending to its sequence of records. |
| `RecordQueue.Queue.PopFront` | include/forge/channel.hpp:103-112 | Popping drops the head and leaves the popped record unlinked. |
| `RecordQueue.Queue.Remove` | include/forge/channel.hpp:114-131 | Removal from anywhere drops exactly that record, keeps head and tail right, and reports absence. |
| `RecordQueue.Queue.TakeAll` | include/forge/channel.hpp:133-136 | Detaching empties the queue and returns the head of the intact chain. |
| `RecordQueue.CompleteChain` | include/forge/channel.hpp:306-319 | The loop over a detached chain visits every record once, in order, unlinking each first. |
| `ChannelState.Core.StartSend` | include/forge/channel.hpp:187-218 | On the linked queues, every branch does what the step does, including the second look at the stop flag; the completion order is that of the step. |
| `ChannelState.Core.StartRecv` | include/forge/channel.hpp:220-248 | The same for start_recv, with the promotion of a queued send. |
| `ChannelState.Core.PromoteOneSend` | include/forge/channel.hpp:378-392 | Moves the first queued send into the freed slot, or errors it when the buffer cannot grow. |
| `ChannelState.Core.TrySend` | include/forge/channel.hpp:253-273 | Accepts exactly when the step does; a refused or throwing call leaves the channel alone. |
| `ChannelState.Core.TryRecv` | include/forge/channel.hpp:275-292 | Returns a value exactly when the step delivers one, and the same value. |
| `ChannelState.Core.Close` | include/forge/channel.hpp:294-320 | Sets the closed flag, detaches both queues and completes receivers before senders, as the step does; the buffer stays. |
| `ChannelState.Core.RequestStop` | include/forge/channel.hpp:322-344 | The same, and the buffer is discarded. |
| `ChannelState.Core.Cancel` | include/forge/channel.hpp:351-371 | Removes the record if it is still queued, as the step does. |
| `ChannelRuns.StepInv` | include/forge/channel.hpp:187-392 | Every critical section, completion call and flag update keeps the channel invariant. |
| `ChannelRuns.RunInv` | include/forge/channel.hpp:187-392 | The invariant holds in every state of every run. |
| `ChannelLaws.ReceivesHead` | include/forge/channel.hpp:220-292 | Every receive takes the head of buffer followed by queued sends; a value bypasses it only when it is empty. |
| `ChannelLaws.FifoOrder` | include/forge/channel.hpp:187-292 | In every run values are received in submission order, unaltered, and before everything still queued. |
| `ChannelLaws.Conservation` | include/forge/channel.hpp:187-344 | Every submitted value is exactly one of received, in flight, refused or discarded. |
| `ChannelLaws.AtMostOneCompletion` | include/forge/channel.hpp:444-469 | No record is ever asked to complete twice. |
| `ChannelLaws.FailedSendNeverReceived` | include/forge/channel.hpp:453-469 | Once a send completed with stopped or an error, its value is never received in any later state. |
| `ChannelLaws.SuccessfulSendAccepted` | include/forge/channel.hpp:444-451 | A send that completed with a value is received, buffered, or was discarded by request_stop. |
| `ChannelLaws.ReceiveOutcome` | include/forge/channel.hpp:542-556 | A receive completes with a value iff exactly one value was handed to it, and never with an error. |
| `ChannelLaws.WaitingReceiversSeeNothing` | include/forge/channel.hpp:299-304 | Pending receivers imply an empty buffer and no pending sends; the buffer never exceeds the capacity; a closed or stopped channel has nobody waiting. |
| `ChannelLaws.NoPreparedValueWaits` | include/forge/channel.hpp:306-313 | A waiting or detached receiver never holds a prepared value, so that branch of close is dead. |
| `ChannelLaws.NoLostCancellation` | include/forge/channel.hpp:413-422 | A record with its stop flag up is queued only while its callback is between raising the flag and taking the lock. |
| `ChannelLaws.QuietMeansSettled` | include/forge/channel.hpp:351-371 | With no task, lock holder or callback under way, every started record is done or rightly waiting on an open channel. |
| `ChannelLaws.WaitsWithRoomExactly` | include/forge/channel.hpp:378-392 | A send waits although the buffer has room iff a promotion failed to allocate since the send queue was last empty. |
| `ChannelLaws.WaitsWithRoom` | include/forge/channel.hpp:378-392 | A run that ends with a queued send and a free slot. |
| `ChannelOutcomes.ShutExactly` | include/forge/channel.hpp:294-344 | A channel is closed iff close was called before, and stopped iff request_stop was. |
| `ChannelOutcomes.NobodyQueuesAfterShut` | include/forge/channel.hpp:294-344 | After either, no send or receive is queued in any state. |
| `ChannelOutcomes.SendOutcome` | include/forge/channel.hpp:187-218 | start_send is refused and stopped iff the channel was shut before or its flag is up; else handed to the first waiting receiver, which completes first; else buffered, or failed without memory, if there is room; else queued last. |
| `ChannelOutcomes.TrySendOutcome` | include/forge/channel.hpp:253-273 | try_send is refused iff the channel was shut before, is full, or has no memory and nobody waits; else handed to the first waiting receiver or buffered. |
| `ChannelOutcomes.SendsRefusedAfterShut` | include/forge/channel.hpp:187-273 | After close or request_stop the ticket of every send and try_send is refused in every later state, and its value never received. |
| `ChannelOutcomes.RecvOutcome` | include/forge/channel.hpp:220-248 | start_recv takes the head of the queue while there is one and promotes the first queued send; else it is stopped iff the channel was shut before or its flag is up; else queued last. |
| `ChannelOutcomes.TryRecvOutcome` | include/forge/channel.hpp:275-292 | try_recv takes the head of the queue likewise, and with an empty queue changes nothing. |
| `ChannelOutcomes.RecvsAfterShut` | include/forge/channel.hpp:220-292 | After close or request_stop a receive takes the head of the buffer while there is one, and is then stopped. |
| `ChannelOutcomes.RecheckOutcome` | include/forge/channel.hpp:208-214 | A start that queued itself is withdrawn and stopped iff its flag is up when it looks again. |
| `ChannelOutcomes.CancelOutcome` | include/forge/channel.hpp:351-371 | The stop callback withdraws a queued record, leaving the order of the others, and leaves any other record alone. |
| `ChannelClosing.ShutOutcome` | include/forge/channel.hpp:294-344 | close and request_stop promise stopped to everybody queued, receivers first, refuse the queued values, and keep or discard the buffer. |
| `ChannelClosing.DrainsAfterClose` | include/forge/channel.hpp:294-304 | Until request_stop, values received and buffered together stay the same sequence after close: what is buffered is received, in order, and nothing else. |
| `ChannelClosing.NothingReceivedAfterStop` | include/forge/channel.hpp:322-344 | After request_stop nothing is received again. |
| `ChannelClosing.PromiseKept` | include/forge/channel.hpp:154-171 | The signal a critical section promises a record is the only one that record ever gets. |
| `ChannelClosing.CompletedInTaskOrder` | include/forge/channel.hpp:154-171 | The records one critical section hands out complete in its order: a receiver before the send that served it. |
| `ChannelClosing.ErrorsNeedFailedAllocation` | include/forge/channel.hpp:204-207 | A send is failed with an error only by a step whose allocation failed. |
| `ChannelClosing.RaisedExactly` | include/forge/channel.hpp:413-422 | A record counts as stopped exactly from the raising of its flag on, before and after its callback took the lock. |
| `ChannelClosing.FailedStartOutcome` | include/forge/channel.hpp:608-619 | A start that finds its token stopped or cannot register is stopped without touching the channel. |
| `ChannelClosing.InstallOutcome` | include/forge/channel.hpp:471-496 | A start that goes ahead is ready, and can be stopped iff it registered a callback. |
| `TimerState.Shared.Enqueue` | include/forge/timer_context.hpp:412-421 | Accepts and counts the item unless stopped, as the step does. |
| `TimerState.Shared.DiscardItem` | include/forge/timer_context.hpp:444-457 | The search removes a still queued item and uncounts it, or reports that the worker has it. |
| `TimerState.Shared.FindFlagged` | include/forge/timer_context.hpp:502-505 | The loop finds the first item whose stop flag is up. |
| `TimerState.Shared.MinElement` | include/forge/timer_context.hpp:513-517 | The loop finds the first item of least deadline. |
| `TimerState.Shared.NextReady` | include/forge/timer_context.hpp:477-537 | One round under the lock takes what the step takes; TimerOutcomes.LookOutcome says what that is. |
| `TimerState.Shared.FinishOne` | include/forge/timer_context.hpp:546-552 | After a delivery the counter drops by one and waiters are told at zero. |
| `TimerProofs.StepInv` | include/forge/timer_context.hpp:264-555 | Every step of worker, starters, destructors and stop callbacks keeps the timer invariant. |
| `TimerProofs.RunInv` | include/forge/timer_context.hpp:264-555 | The invariant holds in every state of every run. |
| `TimerLaws.NoCallAfterDestroy` | include/forge/timer_context.hpp:676-697 | After the destructor of an operation returns, no later step of any thread invokes its receiver. |
| `TimerLaws.GoneMeansSettled` | include/forge/timer_context.hpp:676-697 | A destructor that returned leaves the item delivered or discarded and no completion attempt, unless a receiver running on its own thread called it. |
| `TimerLaws.NeverWaitsForItself` | include/forge/timer_context.hpp:680-697 | A waiting destructor waits for a delivery that another thread is making; in particular the worker never waits for its own. |
| `TimerLaws.AbandonedNeverCalled` | include/forge/timer_context.hpp:692-696 | An operation whose destructor won the claim is never completed. |
| `TimerLaws.OneFate` | include/forge/timer_context.hpp:412-457 | Every accepted item is exactly one of queued, in delivery, delivered or discarded. |
| `TimerLaws.DeliveredOnce` | include/forge/timer_context.hpp:276-280 | In a whole run the worker delivers an item at most once. |
| `TimerLaws.DeliveredStays` | include/forge/timer_context.hpp:276-280 | A delivered item stays delivered in every later state. |
| `TimerLaws.DeliveredMeansCalled` | include/forge/timer_context.hpp:318-334 | The receiver of a delivered item was invoked iff its operation had not been abandoned. |
| `TimerLaws.PendingIsExact` | include/forge/timer_context.hpp:412-457 | pending equals the queued items plus the one being delivered. |
| `TimerLaws.WaitMeansSettled` | include/forge/timer_context.hpp:459-465 | When wait returns every accepted item has been delivered or discarded, and exactly the operations not abandoned have had their receivers invoked. |
| `TimerLaws.ExitIsFinal` | include/forge/timer_context.hpp:480-486 | The worker leaves only with nothing queued and nothing pending, and it stays that way. |
| `TimerLaws.CalledOnceAndDue` | include/forge/timer_context.hpp:318-334 | No receiver is invoked twice, and with a value only after its deadline. |
| `TimerLaws.ValueDeliveriesInOrder` | include/forge/timer_context.hpp:501-523 | Whenever the worker of a run takes an item for a value delivery, it is the first due one of least deadline and no queued item is flagged. |
| `TimerLaws.SleepsOnlyWhenNothingIsDue` | include/forge/timer_context.hpp:493-536 | The worker sleeps on queued items only if none is flagged and none is due. |
| `TimerOutcomes.StopExactly` | include/forge/timer_context.hpp:423-429 | The context is stopped iff shutdown was called before. |
| `TimerOutcomes.FlaggedExactly` | include/forge/timer_context.hpp:431-439 | The stop flag of an item is up iff a stop was requested for it before. |
| `TimerOutcomes.AcceptsExactly` | include/forge/timer_context.hpp:412-421 | enqueue accepts an item iff shutdown did not come before; afterwards start completes inline. |
| `TimerOutcomes.LookOutcome` | include/forge/timer_context.hpp:477-537 | One look of the worker: after shutdown the last item is stopped, or with none left it exits; else the first flagged item is stopped; else the first due one of least deadline is delivered; else nothing changes. |
| `TimerOutcomes.TakeOutcome` | include/forge/timer_context.hpp:477-537 | The same at every such step of every run. |
| `TimerOutcomes.WaitsExactly` | include/forge/timer_context.hpp:493-536 | The worker waits without a deadline iff nothing is queued, and with one iff nothing queued is flagged or due. |
| `TimerOutcomes.StoppedTakeHasReason` | include/forge/timer_context.hpp:480-511 | An item taken to be stopped was taken after shutdown, or is flagged with no earlier queued item flagged. |
| `TimerOutcomes.CallHasReason` | include/forge/timer_context.hpp:318-334 | A receiver of an accepted item invoked with stopped has a stop request for it or a shutdown before it in the run; one invoked with a value had its item accepted. |
| `TimerOutcomes.SignalFixedAtTake` | include/forge/timer_context.hpp:539-544 | With which signal a receiver is invoked is fixed when the worker takes its item; later flags do not change it. |
| `TimerOutcomes.DestructorOutcome` | include/forge/timer_context.hpp:676-697 | A destructor returns at once without an item or on the completing thread, claims an unclaimed operation, and else waits; having claimed, it takes a queued item out and returns, or waits for the worker. |
| `CountingScope.StepInv` | backport/cpp26/execution/counting_scope.hpp:63-126 | Every step, by any thread, keeps the scope invariant. |
| `CountingScope.CountIsExact` | backport/cpp26/execution/counting_scope.hpp:284-344 | The count is the number of engaged associations and releases under way; unused, unused-and-closed and joined mean zero; joining iff joiners wait, and then the count is positive. |
| `CountingScope.NeverTerminates` | backport/cpp26/execution/counting_scope.hpp:80-91 | The terminating branch of join start is unreachable. |
| `CountingScope.JoinedForever` | backport/cpp26/execution/counting_scope.hpp:307-315 | Once joined, a scope stays joined with count zero. |
| `CountingScope.RejectsForever` | backport/cpp26/execution/counting_scope.hpp:98-102 | Once associations are rejected they are rejected in every later state. |
| `CountingScope.CompletesOnceAtZero` | backport/cpp26/execution/counting_scope.hpp:118-126 | A joiner completes at most once, only with the count at zero, which it stays. |
| `CountingScope.NoJoinerStranded` | backport/cpp26/execution/counting_scope.hpp:329-344 | With no release or completion under way every joiner has completed or some association is still engaged. |
| `CountingScope.LastReleaseFreesAll` | backport/cpp26/execution/counting_scope.hpp:329-344 | The release that brings the count to zero hands all waiting joiners over. |
| `CountingScopeLaws.RejectsExactly` | backport/cpp26/execution/counting_scope.hpp:98-102 | A scope rejects associations iff an earlier step closed it, joined it at count zero, or released the last association to a waiting joiner. |
| `CountingScopeLaws.JoinedExactly` | backport/cpp26/execution/counting_scope.hpp:307-344 | A scope is joined iff an earlier join met count zero or an earlier last release met a joiner. |
| `CountingScopeLaws.UnusedExactly` | backport/cpp26/execution/counting_scope.hpp:76-78 | An unjoined scope is unused, closed or not, iff the count has been zero in every state so far. |
| `CountingScopeLaws.StateIsHistory` | backport/cpp26/execution/counting_scope.hpp:53-102 | Which of the seven states the scope is in, read off its history: joined, used, closed, somebody waiting. |
| `CountingScopeLaws.AssociatesExactly` | backport/cpp26/execution/counting_scope.hpp:110-116 | An association engages its new handle iff the count is below the limit, no earlier step closed or joined the scope and, for a copy, the original is engaged; every other handle stays as it was. |
| `CountingScopeLaws.NoAssociationAfterClose` | backport/cpp26/execution/counting_scope.hpp:205-211 | After a close no association, fresh or copied, adds an engaged handle. |
| `CountingScopeLaws.CountFallsAfterClose` | backport/cpp26/execution/counting_scope.hpp:205-211 | From a close on, the count never rises. |
| `CountingScopeLaws.EngagementMoves` | backport/cpp26/execution/counting_scope.hpp:250-288 | Moves pass an engagement on and empty the source, release ends it, and no other step touches it. |
| `CountingScopeLaws.JoinOutcome` | backport/cpp26/execution/counting_scope.hpp:307-327 | A join completes at once iff the count is zero, and otherwise waits ahead of the earlier ones. |
| `CountingScopeLaws.LastInFirstOut` | backport/cpp26/execution/counting_scope.hpp:118-126 | Of two joiners that had to wait, the later completes first, in every later state. |
| `CountingScopeState.CompleteJoiners` | backport/cpp26/execution/counting_scope.hpp:118-126 | The loop completes every joiner of the chain once, unlinking and unregistering it first. |
| `CountingScopeState.Scope.Associate` | backport/cpp26/execution/counting_scope.hpp:295-305 | Associates exactly when the transition function engages. |
| `CountingScopeState.Scope.StartJoin` | backport/cpp26/execution/counting_scope.hpp:307-327 | Joins at once at count zero, otherwise registers the joiner at the head; the terminating branch is proved dead. |
| `CountingScopeState.Scope.Decrement` | backport/cpp26/execution/counting_scope.hpp:329-344 | The last release of a joining scope detaches and completes all joiners, most recent first. |

## Left out

- Hive allocator propagation, raw allocation, `launder` and byte copies: language mechanics; allocation is an address that may be missing, and blocks in the container are values under their address, with in-place arrays proved separately in `HiveBlockArray`.
- Hive constructors, assignment, `insert` overloads, `clear` and `get_iterator`: loops over emplace or lookups with easy contracts.
- Comparison of iterators of different containers and of end iterators: address order, nothing to prove; the end epoch is a counter.
- HiveRebuild.ShrinkToFit: returns the rebuilt container instead of swapping it into the caller's object; moving an element is taken not to throw.
- HiveRebuild.Reshape: returns the rebuilt container instead of swapping it into the caller's object.
- HivePlanner.PlanComplete: takes a positive minimum block capacity, which the hard limits enforce on every container.
- Index width in submdspan and padded layouts: mappings compute in unbounded integers; the representability checks that guard overflow are modelled and proved exact.
- Static extents, integral-constant detection and the other template machinery of submdspan and the padded layouts.
- SubmdspanBranches.SubmdspanLeftPadded: takes padded sources whose stride is at least the padded extent, as the constructors produce.
- SubmdspanBranches.SubmdspanRightPadded: takes padded sources whose stride is at least the padded extent, as the constructors produce.
- Memory orderings and condition-variable wake-ups: steps are sequentially consistent, and waiting is stated through its predicate.
- The re-entrancy guard of strand wait and of timer wait on the worker thread: they return at once and change nothing.
- StrandState.Shared.BeginRun: takes a running flag that is set while the queue is non-empty, which is part of the strand invariant.
- StrandState.Shared.EndRun: takes set running and active flags during a turn, which is part of the strand invariant.
- Deregistering stop callbacks in channel and timer: callbacks may fire at any time after installation, also after completion, which allows more behaviour than the source.
- The saturating duration arithmetic and the 24-hour slice of the timer's sleep.
- The stop-fusing wrapper and the scheduling of join completions in the counting scopes.
- Sender and receiver plumbing, type erasure, coroutines, thread pools, run loops, simd, linalg and io.
