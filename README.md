# ContinuousQueue in Dafny

A model of `ContinuousQueue<T>` (`Source/Libraries/GSF.Unmanaged/Collections/ContinuousQueue.cs`).
This class is a circular buffer over a growable backing array. Every item gets an absolute index
when it is added. Indices run consecutively from `BeginningIndex` to `EndIndex` and do not change
while the item stays in the queue. The queue keeps four counters: the head slot, the tail slot,
the count and the beginning index. It grows by doubling when an add finds it full. `SetCapacity`
copies the live items into a new array, starting at slot 0, in one run or in two runs.

The project has three modules:

- `Cursor` (`cursor.dfy`): pure cursor arithmetic. `Next`, `Prev` and `SlotAfter` are the cursor
  steps as the class computes them (add, then wrap once). `Rotate` is the backing array read from
  the head onwards. The lemmas say what each single write or cursor step does to that view.
- `Collections` (`continuous_queue.dfy`): the class `ContinuousQueue<T>`. Its fields are those of
  the original: `items: array<T>` and `head`, `tail`, `count`, `beginningIndex`. `Valid()` is the
  cursor invariant, and `Live()` lists the items that hold indices `beginningIndex .. EndIndex()`.
  Each state-changing operation as written (SetCapacity, the adds, the removals, SetItem, and
  the aliases Enqueue, Push, Dequeue and Pop) is specified twice. Once at the level of physical
  slots (`items[..]`, `head`, `tail`), which is exactly what the code does. And once at the level
  of `Live()`, which is what the change means for the indexed items. The reads (GetItem and the
  peeks) and the corrected members are specified at the level of `Live()` and their results.
- `QueueScenarios` (`scenarios.dfy`): clients that use only the contracts. Generic round trips
  (first in, first out through any number of wraps and doublings; an indexed write read back after
  growth; the corrected front/back pair) and small concrete runs.

The model follows the code as written, and that includes its slips:

- `AddToBeginning` stores the item in the current head slot before it moves the head back.
- `RemoveFromEnd` reads and clears the slot at the tail before it moves the tail back.
- `GetItem`/`SetItem` refuse both end indices, so `PeekAtBeginning` and `PeekAtEnd` always fail.
- A queue of capacity 0 stays at capacity 0 when it "doubles", so an add then fails.

The class documents itself as a circular buffer whose items keep a unique, consecutive index
while they are in it (ContinuousQueue.cs:27-32). Its doc comments say that Enqueue and Push add
"an item to the beginning of the queue" (lines 117 and 127), that Dequeue removes one "from the
end" (line 137), and that Pop removes one "from the beginning" (line 146). The first three slips
break those promises: the added item does not become the first live item, the end removal does
not return the last item, and no index the class handed out can be peeked at either end. The
model sides with the code. For each of these three slips there is a member modelling the code as
written, a counterexample scenario, and a corrected member with the intended property proved (see
"## Findings"). The capacity-0 slip is shown by the scenario `ZeroCapacityExample` only; the model
has no corrected growth rule for it.

Exceptions become results: `Result<R> = Ok(value) | Err(error)` and `Outcome = Pass | Fail(error)`.
The errors are `QueueEmpty` ("Queue is empty"), `ArgumentOutOfRange` (index checks) and
`IndexOutOfRange` (a write into an array of length 0). `default(T)` is the `defaultItem` given to
the constructor.

## Model

| member | source | states |
|---|---|---|
| Cursor.Next | Source/Libraries/GSF.Unmanaged/Collections/ContinuousQueue.cs:307-313 | the step forward stays a slot of the ring and is the next slot, or slot 0 after the last one |
| Cursor.Prev | Source/Libraries/GSF.Unmanaged/Collections/ContinuousQueue.cs:314-320 | the step back stays a slot of the ring and is the previous slot, or the last slot before slot 0 |
| Cursor.SlotAfter | Source/Libraries/GSF.Unmanaged/Collections/ContinuousQueue.cs:231-234 | adding up to a full turn and subtracting the capacity once yields a slot, `head + k` or `head + k - capacity` |
| Cursor.PhysicalSlot | Source/Libraries/GSF.Unmanaged/Collections/ContinuousQueue.cs:250-253 | the slot of relative position `k` is a slot of the ring; distinct positions map to distinct slots |
| Cursor.CursorsAreModular | Source/Libraries/GSF.Unmanaged/Collections/ContinuousQueue.cs:307-337 | the wrap-once cursor steps equal `(i + 1) mod n`, `(i - 1) mod n` and `(i + k) mod n` |
| Cursor.RotateAt | Source/Libraries/GSF.Unmanaged/Collections/ContinuousQueue.cs:231-235 | position `k` of the view from the head is the array slot that GetItem computes for `k` |
| Cursor.RotateUpdate | Source/Libraries/GSF.Unmanaged/Collections/ContinuousQueue.cs:250-254 | writing the slot of position `k` changes position `k` of the view and nothing else |
| Cursor.RotateNext | Source/Libraries/GSF.Unmanaged/Collections/ContinuousQueue.cs:321-328 | advancing the head moves the first item of the view to its back |
| Cursor.RotatePrev | Source/Libraries/GSF.Unmanaged/Collections/ContinuousQueue.cs:329-337 | moving the head back brings the last item of the view to its front |
| Cursor.RotatePrefix | Source/Libraries/GSF.Unmanaged/Collections/ContinuousQueue.cs:287-296 | the first `c` items of the view are one run of the array, or its end followed by its start |
| Cursor.CopyOneRun | Source/Libraries/GSF.Unmanaged/Collections/ContinuousQueue.cs:287-290 | one copy of `count` slots from the head into a blank array lays out the live items, then blanks |
| Cursor.CopyTwoRuns | Source/Libraries/GSF.Unmanaged/Collections/ContinuousQueue.cs:291-296 | the head-to-end copy followed by the start-to-tail copy lays out the same sequence |
| Cursor.WriteThenStepBack | Source/Libraries/GSF.Unmanaged/Collections/ContinuousQueue.cs:173-174 | on the view: write the first position, then rotate right; the old last slot comes first and the item replaces the former front |
| Cursor.StepBackThenWrite | Source/Libraries/GSF.Unmanaged/Collections/ContinuousQueue.cs:173-174 | on the view: rotate right, then write the first position; the item is put in front of the live items |
| Cursor.WriteAtTail | Source/Libraries/GSF.Unmanaged/Collections/ContinuousQueue.cs:187-188 | writing the slot `count` after the head appends the item to the live items |
| Cursor.ClearHeadThenAdvance | Source/Libraries/GSF.Unmanaged/Collections/ContinuousQueue.cs:200-202 | the head slot holds the front item; clearing it and advancing the head leaves the remaining live items |
| Cursor.WriteHeadThenStepBack | Source/Libraries/GSF.Unmanaged/Collections/ContinuousQueue.cs:173-174 | write the head slot, then step back: the slot before the old head becomes the front, the item replaces the old front |
| Cursor.StepBackThenWriteHead | Source/Libraries/GSF.Unmanaged/Collections/ContinuousQueue.cs:173-174 | step back, then write the new head slot: the item goes in front of all live items |
| Cursor.ClearAtTail | Source/Libraries/GSF.Unmanaged/Collections/ContinuousQueue.cs:214-216 | the tail slot is a free slot, or the front slot when the queue is full; clearing it leaves the first `count - 1` items, or those with the front cleared |
| Cursor.ClearLast | Source/Libraries/GSF.Unmanaged/Collections/ContinuousQueue.cs:214-216 | the slot before the tail holds the last live item; clearing it leaves the others |
| Collections.ArrayCopy | Source/Libraries/GSF.Unmanaged/Collections/ContinuousQueue.cs:289-295 | Array.Copy between distinct arrays: the target range gets the source range, the rest of the target is unchanged |
| Collections.CopyInOrder | Source/Libraries/GSF.Unmanaged/Collections/ContinuousQueue.cs:285-297 | the two copy branches of SetCapacity leave the live items in order from slot 0, with blanks after them |
| Collections.ContinuousQueue.constructor | Source/Libraries/GSF.Unmanaged/Collections/ContinuousQueue.cs:107-114 | an empty queue with cursors and beginning index 0 and `Max(capacity, 0)` blank slots |
| Collections.ContinuousQueue.SetCapacity | Source/Libraries/GSF.Unmanaged/Collections/ContinuousQueue.cs:281-305 | the new size is at least the request and the count; the live items, the count and the numbering are kept, laid out from slot 0, head 0, tail `count` wrapped |
| Collections.ContinuousQueue.IncrementTail | Source/Libraries/GSF.Unmanaged/Collections/ContinuousQueue.cs:307-313 | count plus one, tail one slot forward, all else unchanged |
| Collections.ContinuousQueue.DecrementTail | Source/Libraries/GSF.Unmanaged/Collections/ContinuousQueue.cs:314-320 | count minus one, tail one slot back, all else unchanged |
| Collections.ContinuousQueue.IncrementHead | Source/Libraries/GSF.Unmanaged/Collections/ContinuousQueue.cs:321-328 | beginning index plus one, count minus one, head one slot forward |
| Collections.ContinuousQueue.DecrementHead | Source/Libraries/GSF.Unmanaged/Collections/ContinuousQueue.cs:329-337 | beginning index minus one, count plus one, head one slot back |
| Collections.ContinuousQueue.AddToEnd | Source/Libraries/GSF.Unmanaged/Collections/ContinuousQueue.cs:183-190 | the item is appended to the live items and gets index old EndIndex + 1; a full queue first doubles; capacity 0 gives IndexOutOfRange |
| Collections.ContinuousQueue.AddToBeginning | Source/Libraries/GSF.Unmanaged/Collections/ContinuousQueue.cs:169-176 | as written: returns old beginning index - 1, but the item replaces the old front and the slot before the head becomes the front (a blank after growth) |
| Collections.ContinuousQueue.WriteHeadAndStepBack | Source/Libraries/GSF.Unmanaged/Collections/ContinuousQueue.cs:173-174 | the store-then-step of AddToBeginning: one slot written, head one back, live items as in AddToBeginning |
| Collections.ContinuousQueue.RemoveFromBeginning | Source/Libraries/GSF.Unmanaged/Collections/ContinuousQueue.cs:196-204 | returns the front item and drops it from the live items, beginning index + 1, its slot cleared; empty gives QueueEmpty and no change |
| Collections.ContinuousQueue.RemoveFromEnd | Source/Libraries/GSF.Unmanaged/Collections/ContinuousQueue.cs:210-218 | as written: returns and clears the tail slot (a free slot, or the front when full) and drops the last item from the live range; empty gives QueueEmpty |
| Collections.ContinuousQueue.GetItem | Source/Libraries/GSF.Unmanaged/Collections/ContinuousQueue.cs:225-236 | fails exactly when the index is not strictly between BeginningIndex and EndIndex; otherwise returns the live item with that index |
| Collections.ContinuousQueue.SetItem | Source/Libraries/GSF.Unmanaged/Collections/ContinuousQueue.cs:244-255 | the same strict bounds; on success, the live item with that index is replaced and no other slot changes |
| Collections.ContinuousQueue.PeekAtBeginning | Source/Libraries/GSF.Unmanaged/Collections/ContinuousQueue.cs:159-162 | always fails with ArgumentOutOfRange, empty or not |
| Collections.ContinuousQueue.PeekAtEnd | Source/Libraries/GSF.Unmanaged/Collections/ContinuousQueue.cs:154-157 | always fails with ArgumentOutOfRange, empty or not |
| Collections.ContinuousQueue.TailFollowsHead | Source/Libraries/GSF.Unmanaged/Collections/ContinuousQueue.cs:300-302 | under the invariant, tail is `(head + count) mod capacity` and both cursors are slots |
| Collections.ContinuousQueue.Enqueue | Source/Libraries/GSF.Unmanaged/Collections/ContinuousQueue.cs:121-124 | the full contract of AddToBeginning: the index one below the old beginning, the counters, the slot written before the head steps back, growth, and the live items with the overwritten front |
| Collections.ContinuousQueue.Push | Source/Libraries/GSF.Unmanaged/Collections/ContinuousQueue.cs:131-134 | the full contract of AddToBeginning, as for Enqueue |
| Collections.ContinuousQueue.Dequeue | Source/Libraries/GSF.Unmanaged/Collections/ContinuousQueue.cs:140-143 | the full contract of RemoveFromEnd: QueueEmpty on an empty queue; otherwise the slot at the tail is returned and cleared, the tail steps back, and the live items and counters change as for RemoveFromEnd |
| Collections.ContinuousQueue.Pop | Source/Libraries/GSF.Unmanaged/Collections/ContinuousQueue.cs:149-152 | the full contract of RemoveFromBeginning: QueueEmpty on an empty queue; otherwise returns the front item, clears its slot, advances the head and drops the item from the live range |
| Collections.ContinuousQueue.AddToBeginningCorrected | Source/Libraries/GSF.Unmanaged/Collections/ContinuousQueue.cs:169-176 | corrected: the item is put in front of the live items with index old beginning index - 1 |
| Collections.ContinuousQueue.RemoveFromEndCorrected | Source/Libraries/GSF.Unmanaged/Collections/ContinuousQueue.cs:210-218 | corrected: returns the last live item and drops it, EndIndex - 1 |
| Collections.ContinuousQueue.GetItemCorrected | Source/Libraries/GSF.Unmanaged/Collections/ContinuousQueue.cs:225-236 | corrected: fails exactly outside BeginningIndex..EndIndex inclusive, otherwise returns the live item with that index |
| QueueScenarios.AppendAll | Source/Libraries/GSF.Unmanaged/Collections/ContinuousQueue.cs:183-190 | repeated AddToEnd appends the items in order, with consecutive indices from old EndIndex + 1 |
| QueueScenarios.RemoveFromBeginningN | Source/Libraries/GSF.Unmanaged/Collections/ContinuousQueue.cs:196-204 | `n` front removals return the first `n` live items in order; the head moves `n` slots |
| QueueScenarios.FifoRoundTrip | Source/Libraries/GSF.Unmanaged/Collections/ContinuousQueue.cs:183-204 | items appended to a new queue get indices 0, 1, ... and come back from the front in order, across wraps and doublings; then QueueEmpty |
| QueueScenarios.IndexedRoundTrip | Source/Libraries/GSF.Unmanaged/Collections/ContinuousQueue.cs:244-255 | a value written with SetItem is read back by GetItem at the same index after appends that grow the array |
| QueueScenarios.GrownQueue | Source/Libraries/GSF.Unmanaged/Collections/ContinuousQueue.cs:183-190 | capacity 2, append 10, 20, 30: indices 0, 1, 2 and capacity 4 |
| QueueScenarios.AppendGrowReadExample | Source/Libraries/GSF.Unmanaged/Collections/ContinuousQueue.cs:225-236 | on that queue, GetItem(0) and GetItem(2) fail, GetItem(1) is 20; after removing 10, GetItem(0) fails |
| QueueScenarios.DrainedQueue | Source/Libraries/GSF.Unmanaged/Collections/ContinuousQueue.cs:196-204 | capacity 4, append 1..4, remove 2 from the front: removals 1, 2, live items 3, 4 with beginning index 2, head at slot 2 |
| QueueScenarios.WrappedQueue | Source/Libraries/GSF.Unmanaged/Collections/ContinuousQueue.cs:307-328 | capacity 4, append 1..4, remove 2, append 5, 6: removals 1, 2, indices 4, 5, head and tail at slot 2 |
| QueueScenarios.WraparoundExample | Source/Libraries/GSF.Unmanaged/Collections/ContinuousQueue.cs:225-236 | on the wrapped queue, indices 3 and 4 read 4 and 5 across the wrap; 2 and 5 are refused |
| QueueScenarios.AddToBeginningExample | Source/Libraries/GSF.Unmanaged/Collections/ContinuousQueue.cs:169-176 | capacity 4 holding 1, 2: AddToBeginning(3) returns -1, and front removals give 0, 3, 2 |
| QueueScenarios.RemoveFromEndExample | Source/Libraries/GSF.Unmanaged/Collections/ContinuousQueue.cs:210-218 | capacity 4 holding 1, 2: RemoveFromEnd returns 0, then 1 comes from the front, then QueueEmpty |
| QueueScenarios.RemoveFromEndTwiceExample | Source/Libraries/GSF.Unmanaged/Collections/ContinuousQueue.cs:210-218 | capacity 4 holding 1, 2: two RemoveFromEnd calls return 0 and then 2, and the queue is then empty, so 1 is never returned |
| QueueScenarios.ZeroCapacityExample | Source/Libraries/GSF.Unmanaged/Collections/ContinuousQueue.cs:169-190 | a queue created with a negative capacity has capacity 0: AddToEnd and AddToBeginning both fail with IndexOutOfRange and the capacity stays 0 |
| QueueScenarios.RemoveFromEndFullExample | Source/Libraries/GSF.Unmanaged/Collections/ContinuousQueue.cs:210-218 | full capacity 2 holding 1, 2: RemoveFromEnd returns the front item 1 and the front then reads 0 |
| QueueScenarios.FrontOrderAt | Source/Libraries/GSF.Unmanaged/Collections/ContinuousQueue.cs:169-176 | the order of items put in front one by one keeps every item: it has the same length, and position `j` holds the item put in `n - 1 - j`-th |
| QueueScenarios.FrontOrderPrepend | Source/Libraries/GSF.Unmanaged/Collections/ContinuousQueue.cs:169-176 | one more item put in front of the front order of a prefix gives the front order of the longer prefix |
| QueueScenarios.PushAllFront | Source/Libraries/GSF.Unmanaged/Collections/ContinuousQueue.cs:169-176 | repeated AddToBeginningCorrected puts the items in front in their front order, ahead of the old live items |
| QueueScenarios.BackOrderUndoesFrontOrder | Source/Libraries/GSF.Unmanaged/Collections/ContinuousQueue.cs:169-218 | reading the front order from its back end gives the items in the order they were put in front |
| QueueScenarios.RemoveFromEndN | Source/Libraries/GSF.Unmanaged/Collections/ContinuousQueue.cs:210-218 | `n` corrected back removals return the last `n` live items, last one first |
| QueueScenarios.FrontToBackRoundTrip | Source/Libraries/GSF.Unmanaged/Collections/ContinuousQueue.cs:169-218 | with the corrected pair, items put in front come back from the end in the order they went in; then QueueEmpty |
| QueueScenarios.CorrectedExample | Source/Libraries/GSF.Unmanaged/Collections/ContinuousQueue.cs:225-236 | corrected reads of the grown queue give 10, 20, 30; an item put in front gets index -1 and reads back; the back removal returns 30 |

## Left out

- Integer widths are left out. The original uses `int` for slots and the count and `long` for indices. The model uses unbounded integers, so `Count * 2` overflowing `int` and the `(int)` cast in GetItem/SetItem are not modelled.
- Collections.ContinuousQueue.constructor: takes `defaultItem` explicitly, as a stand-in for `default(T)`. A negative capacity goes through the same `Max` with the count 0 as in the original.
- Collections.ArrayCopy: requires distinct source and target arrays. SetCapacity only copies into a fresh array, so copying within one array is not modelled.
- The indexer `this[long]` is the same as GetItem/SetItem and has no member of its own. The read-only properties `BeginningIndex`, `Count`, `EndIndex` and `Capacity` are the fields, `EndIndex()` and `Capacity()`.
- Running out of memory during allocation, exception messages and exception types beyond the three error kinds are not modelled.
- Concurrency is not modelled: the class is not thread-safe and nothing here claims it is.
- The other files of the repository are not part of this model.

## Findings

| source | as written | input that shows it | evidently intended | confidence | as-written member | corrected member |
|---|---|---|---|---|---|---|
| Source/Libraries/GSF.Unmanaged/Collections/ContinuousQueue.cs:173-174 | stores the item in the current head slot, then moves the head back | capacity 4 holding 1, 2 (blank 0): AddToBeginning(3) returns -1 and the front removals give 0, 3, 2 | move the head back first, then store, so that the front removals give 3, 1, 2 | not executed | QueueScenarios.AddToBeginningExample | Collections.ContinuousQueue.AddToBeginningCorrected |
| Source/Libraries/GSF.Unmanaged/Collections/ContinuousQueue.cs:214-216 | reads and clears the slot at the tail, one past the last item, then moves the tail back | capacity 4 holding 1, 2: RemoveFromEnd returns the free slot's 0 and moves the tail onto 2's slot, dropping 2 from the live range (a second RemoveFromEnd returns 2, and 1 is then never returned); full capacity 2 holding 1, 2: it returns the front item 1 | move the tail back first, then return 2 and clear its slot | not executed | QueueScenarios.RemoveFromEndExample | Collections.ContinuousQueue.RemoveFromEndCorrected |
| Source/Libraries/GSF.Unmanaged/Collections/ContinuousQueue.cs:227 | refuses `index <= BeginningIndex` and `index >= EndIndex` | capacity 2 after appending 10, 20, 30: GetItem(0) and GetItem(2) fail although 10 and 30 are live; PeekAtBeginning and PeekAtEnd always fail | accept every index from BeginningIndex to EndIndex inclusive | not executed | QueueScenarios.AppendGrowReadExample | Collections.ContinuousQueue.GetItemCorrected |
