/**
 * ContinuousQueue: a circular buffer over a growable backing array in which
 * every item carries an absolute index, numbered consecutively, that stays
 * valid until the item is removed.
 *
 * The class keeps the four cursors of the original (head, tail, count and
 * the absolute index of the head item) and is specified at the level of
 * physical slots, because two of its operations (AddToBeginning and
 * RemoveFromEnd) touch a slot one away from the one a deque would touch.
 * Ring() is the backing array read from the head slot onwards and Live()
 * is its first `count` items: the items that carry absolute indices
 * beginningIndex .. EndIndex().
 */
module Collections {
  import opened Cursor

  /** The exceptions the queue throws. */
  datatype Error =
    | QueueEmpty          // "Queue is empty", thrown by the two remove operations
    | ArgumentOutOfRange  // an absolute index outside the accepted range
    | IndexOutOfRange     // an array write into a backing array of length 0

  datatype Result<R> = Ok(value: R) | Err(error: Error)

  datatype Outcome = Pass | Fail(error: Error)

  function Max(a: int, b: int): int
  {
    if a >= b then a else b
  }

  /**
   * Copies `length` items from `src` at `srcIndex` into `dst` at `dstIndex`,
   * as Array.Copy does for two distinct arrays.
   */
  method ArrayCopy<T>(src: array<T>, srcIndex: int, dst: array<T>, dstIndex: int, length: int)
    requires src != dst
    requires 0 <= srcIndex && 0 <= length && srcIndex + length <= src.Length
    requires 0 <= dstIndex && dstIndex + length <= dst.Length
    modifies dst
    ensures dst[..] == old(dst[..dstIndex]) + src[srcIndex..srcIndex + length] + old(dst[dstIndex + length..])
  {
    forall i | 0 <= i < length {
      dst[dstIndex + i] := src[srcIndex + i];
    }
  }

  /**
   * The copying step of SetCapacity: the `count` items that start at slot
   * `head` of `src` and end before slot `tail` go to slots 0 .. count-1 of
   * the blank array `dst`, as one run when they do not wrap past the end of
   * `src` and as two runs when they do.
   */
  method CopyInOrder<T>(src: array<T>, head: int, tail: int, count: int, dst: array<T>, blank: T)
    requires src != dst && 0 <= head < src.Length && 0 < count <= src.Length && count <= dst.Length
    requires tail == SlotAfter(head, count, src.Length)
    requires dst[..] == seq(dst.Length, _ => blank)
    modifies dst
    ensures dst[..] == Linearised(Rotate(src[..], head)[..count], dst.Length, blank)
  {
    ghost var s, d := src[..], dst[..];
    if head < tail {
      CopyOneRun(s, head, count, d, blank);
      ArrayCopy(src, head, dst, 0, count);
    } else {
      var remainingAtEnd := src.Length - head;
      ArrayCopy(src, head, dst, 0, remainingAtEnd);
      CopyTwoRuns(s, head, count, d, dst[..], blank);
      ArrayCopy(src, 0, dst, remainingAtEnd, tail);
    }
  }

  class ContinuousQueue<T> {
    var items: array<T>
    var head: int
    var tail: int
    var count: int
    var beginningIndex: int
    /** The value of an empty slot (default(T) in the original). */
    const defaultItem: T

    /** The cursor invariant: count within the capacity, both cursors on a slot, tail `count` slots after head. */
    ghost predicate Valid()
      reads this
    {
      && 0 <= count <= items.Length
      && 0 <= head && 0 <= tail
      && (items.Length == 0 ==> head == 0 && tail == 0)
      && (items.Length > 0 ==> head < items.Length && tail < items.Length && tail == SlotAfter(head, count, items.Length))
    }

    /** The backing array read from the head slot onwards, wrapping past its end. */
    ghost function Ring(): seq<T>
      reads this, items
      requires Valid()
    {
      Rotate(items[..], head)
    }

    /** The live items, in the order of their absolute indices. */
    ghost function Live(): seq<T>
      reads this, items
      requires Valid()
    {
      Ring()[..count]
    }

    /** The absolute index of the last live item (one below beginningIndex when the queue is empty). */
    function EndIndex(): int
      reads this
    {
      count + beginningIndex - 1
    }

    function Capacity(): int
      reads this
    {
      items.Length
    }

    /**
     * Creates an empty queue whose first item will get absolute index 0. The
     * capacity goes through SetCapacity's Max with the count 0, so a negative
     * request gives capacity 0.
     */
    constructor (defaultItem: T, capacity: int := 16)
      ensures Valid() && fresh(items)
      ensures items.Length == Max(capacity, 0) && items[..] == seq(items.Length, _ => defaultItem)
      ensures head == 0 && tail == 0 && count == 0 && beginningIndex == 0
      ensures this.defaultItem == defaultItem && Live() == []
    {
      this.defaultItem := defaultItem;
      items := new T[Max(capacity, 0)](_ => defaultItem);
      head, tail, count, beginningIndex := 0, 0, 0, 0;
    }

    /**
     * Replaces the backing array by one of `Max(capacity, count)` slots that
     * holds the live items from slot 0 on, and returns that size: never
     * below the count, so it can shrink the array but never lose an item.
     */
    method SetCapacity(capacity: int) returns (r: int)
      requires Valid()
      modifies this
      ensures Valid() && count == old(count) && beginningIndex == old(beginningIndex)
      ensures r >= capacity && r >= old(count) && (r == capacity || r == old(count))
      ensures fresh(items) && items.Length == r
      ensures items[..] == Linearised(old(Live()), items.Length, defaultItem)
      ensures head == 0 && tail == (if count == items.Length then 0 else count)
      ensures Live() == old(Live())
    {
      var size := Max(capacity, count);
      var newItems := new T[size](_ => defaultItem);
      if count > 0 {
        CopyInOrder(items, head, tail, count, newItems, defaultItem);
      } else {
        assert newItems[..] == Linearised(Live(), size, defaultItem);
      }
      items := newItems;
      head := 0;
      tail := count;
      if tail >= size {
        tail := tail - size;
      }
      assert Ring() == items[..];
      r := size;
    }

    /** Counts one more item and moves the tail one slot forward. */
    method IncrementTail()
      requires 0 <= tail < items.Length
      modifies this
      ensures items == old(items) && head == old(head) && beginningIndex == old(beginningIndex)
      ensures count == old(count) + 1 && tail == Next(old(tail), items.Length)
    {
      count := count + 1;
      tail := tail + 1;
      if tail == items.Length {
        tail := tail - items.Length;
      }
    }

    /** Counts one item less and moves the tail one slot back. */
    method DecrementTail()
      requires 0 <= tail < items.Length
      modifies this
      ensures items == old(items) && head == old(head) && beginningIndex == old(beginningIndex)
      ensures count == old(count) - 1 && tail == Prev(old(tail), items.Length)
    {
      count := count - 1;
      tail := tail - 1;
      if tail < 0 {
        tail := tail + items.Length;
      }
    }

    /** Drops the head item from the numbering: the beginning index rises, the head moves one slot forward. */
    method IncrementHead()
      requires 0 <= head < items.Length
      modifies this
      ensures items == old(items) && tail == old(tail)
      ensures beginningIndex == old(beginningIndex) + 1 && count == old(count) - 1
      ensures head == Next(old(head), items.Length)
    {
      beginningIndex := beginningIndex + 1;
      count := count - 1;
      head := head + 1;
      if head == items.Length {
        head := head - items.Length;
      }
    }

    /** Numbers one more item in front: the beginning index falls, the head moves one slot back. */
    method DecrementHead()
      requires 0 <= head < items.Length
      modifies this
      ensures items == old(items) && tail == old(tail)
      ensures beginningIndex == old(beginningIndex) - 1 && count == old(count) + 1
      ensures head == Prev(old(head), items.Length)
    {
      beginningIndex := beginningIndex - 1;
      count := count + 1;
      head := head - 1;
      if head < 0 {
        head := head + items.Length;
      }
    }

    /**
     * Appends `item` after the last live item and returns its absolute index,
     * one past the former EndIndex(). A full queue first doubles its
     * capacity; a queue of capacity 0 stays at capacity 0 and the write fails.
     */
    method AddToEnd(item: T) returns (r: Result<int>)
      requires Valid()
      modifies this, items
      ensures Valid() && beginningIndex == old(beginningIndex)
      ensures items == old(items) || fresh(items)
      ensures old(items.Length) == 0 ==> r == Err(IndexOutOfRange) && items.Length == 0 && count == 0
      ensures old(items.Length) > 0 ==>
        && r == Ok(old(EndIndex()) + 1)
        && EndIndex() == old(EndIndex()) + 1
        && count == old(count) + 1
        && Live() == old(Live()) + [item]
      ensures 0 < old(count) == old(items.Length) ==>
        && fresh(items) && items.Length == 2 * old(count) && head == 0
        && items[..] == Linearised(old(Live()), items.Length, defaultItem)[old(count) := item]
      ensures old(count) < old(items.Length) ==>
        && items == old(items) && head == old(head) && tail == Next(old(tail), items.Length)
        && items[..] == old(items[..])[old(tail) := item]
    {
      if count == items.Length {
        var _ := SetCapacity(count * 2);
      }
      if items.Length == 0 {
        return Err(IndexOutOfRange);
      }
      WriteAtTail(items[..], head, count, item);
      items[tail] := item;
      IncrementTail();
      r := Ok(EndIndex());
    }

    /**
     * As written: stores `item` in the CURRENT head slot and only then moves
     * the head one slot back, so the new front item is whatever the slot
     * before the head held, and `item` takes the place of the former front
     * item. Returns the new beginning index, one below the former one.
     */
    method AddToBeginning(item: T) returns (r: Result<int>)
      requires Valid()
      modifies this, items
      ensures Valid() && (items == old(items) || fresh(items))
      ensures old(items.Length) == 0 ==>
        r == Err(IndexOutOfRange) && items.Length == 0 && count == 0 && beginningIndex == old(beginningIndex)
      ensures old(items.Length) > 0 ==>
        && r == Ok(old(beginningIndex) - 1)
        && beginningIndex == old(beginningIndex) - 1
        && EndIndex() == old(EndIndex())
        && count == old(count) + 1
      ensures old(count) < old(items.Length) ==>
        && items == old(items) && tail == old(tail) && head == Prev(old(head), items.Length)
        && items[..] == old(items[..])[old(head) := item]
      ensures 0 < old(count) == old(items.Length) ==>
        && fresh(items) && items.Length == 2 * old(count)
        && tail == old(count) && head == items.Length - 1
        && items[..] == Linearised(old(Live()), items.Length, defaultItem)[0 := item]
      ensures 0 < old(count) < old(items.Length) ==>
        Live() == [old(items[..])[head]] + [item] + old(Live())[1..]
      ensures 0 < old(count) == old(items.Length) ==>
        Live() == [defaultItem] + [item] + old(Live())[1..]
      ensures 1 < old(items.Length) && old(count) == 0 ==>
        Live() == [old(items[..])[head]]
      ensures 1 == old(items.Length) && old(count) == 0 ==>
        Live() == [item]
    {
      if count == items.Length {
        var _ := SetCapacity(count * 2);
      }
      if items.Length == 0 {
        return Err(IndexOutOfRange);
      }
      WriteHeadAndStepBack(item);
      r := Ok(beginningIndex);
    }

    /**
     * The store of AddToBeginning once there is room: `item` goes to the head
     * slot and then the head moves one slot back, so the slot before the
     * former head becomes the front.
     */
    method WriteHeadAndStepBack(item: T)
      requires Valid() && count < items.Length
      modifies this, items
      ensures Valid() && items == old(items) && tail == old(tail) && head == Prev(old(head), items.Length)
      ensures count == old(count) + 1 && beginningIndex == old(beginningIndex) - 1
      ensures items[..] == old(items[..])[old(head) := item]
      ensures old(count) > 0 ==> Live() == [old(items[..])[head]] + [item] + old(Live())[1..]
      ensures old(count) == 0 ==> Live() == [items[head]]
    {
      if count > 0 {
        WriteHeadThenStepBack(items[..], head, count, item);
      } else {
        RotateAt(items[..][head := item], Prev(head, items.Length), 0);
      }
      items[head] := item;
      DecrementHead();
    }

    /**
     * Removes the front item and returns it: its slot is reset to the
     * default, the head and the beginning index move one on, EndIndex()
     * stays. An empty queue throws "Queue is empty" and changes nothing.
     */
    method RemoveFromBeginning() returns (r: Result<T>)
      requires Valid()
      modifies this, items
      ensures Valid() && items == old(items)
      ensures old(count) == 0 ==>
        && r == Err(QueueEmpty) && items[..] == old(items[..])
        && head == old(head) && tail == old(tail) && count == 0 && beginningIndex == old(beginningIndex)
      ensures old(count) > 0 ==>
        && r == Ok(old(Live())[0])
        && Live() == old(Live())[1..]
        && beginningIndex == old(beginningIndex) + 1 && EndIndex() == old(EndIndex())
        && items[..] == old(items[..])[old(head) := defaultItem]
        && head == Next(old(head), items.Length) && tail == old(tail)
    {
      if count == 0 {
        return Err(QueueEmpty);
      }
      ClearHeadThenAdvance(items[..], head, count, defaultItem);
      var rv := items[head];
      items[head] := defaultItem;
      IncrementHead();
      r := Ok(rv);
    }

    /**
     * As written: returns and clears the slot AT the tail, which lies one past
     * the last live item, then moves the tail one slot back. While the queue
     * is not full, the last item keeps its slot and value but leaves the live
     * range, and the value returned is that of a free slot; when it is full
     * the tail slot is the head slot, so the front item is returned and cleared.
     * An empty queue throws "Queue is empty" and changes nothing.
     */
    method RemoveFromEnd() returns (r: Result<T>)
      requires Valid()
      modifies this, items
      ensures Valid() && items == old(items)
      ensures old(count) == 0 ==>
        && r == Err(QueueEmpty) && items[..] == old(items[..])
        && head == old(head) && tail == old(tail) && count == 0 && beginningIndex == old(beginningIndex)
      ensures old(count) > 0 ==>
        && r == Ok(old(items[tail]))
        && items[..] == old(items[..])[old(tail) := defaultItem]
        && count == old(count) - 1 && beginningIndex == old(beginningIndex)
        && head == old(head) && tail == Prev(old(tail), items.Length)
        && r == Ok(old(Ring())[if old(count) == items.Length then 0 else old(count)])
      ensures 0 < old(count) < items.Length ==> Live() == old(Live())[..old(count) - 1]
      ensures 0 < old(count) == items.Length ==>
        && r == Ok(old(Live())[0])
        && Live() == old(Live())[0 := defaultItem][..old(count) - 1]
    {
      if count == 0 {
        return Err(QueueEmpty);
      }
      ClearAtTail(items[..], head, count, defaultItem);
      var rv := items[tail];
      items[tail] := defaultItem;
      DecrementTail();
      r := Ok(rv);
    }

    /**
     * The item with absolute index `index`. Only indices strictly between
     * beginningIndex and EndIndex() are accepted: the first and the last
     * live item cannot be read this way.
     */
    method GetItem(index: int) returns (r: Result<T>)
      requires Valid()
      ensures r.Err? <==> index <= beginningIndex || index >= EndIndex()
      ensures r.Err? ==> r.error == ArgumentOutOfRange
      ensures r.Ok? ==>
        && 0 < index - beginningIndex < count - 1
        && r.value == Live()[index - beginningIndex]
        && r.value == items[PhysicalSlot(head, index - beginningIndex, items.Length)]
    {
      if index <= beginningIndex || index >= EndIndex() {
        return Err(ArgumentOutOfRange);
      }
      var relativeIndex := index - beginningIndex;
      relativeIndex := relativeIndex + head;
      if relativeIndex >= items.Length {
        relativeIndex := relativeIndex - items.Length;
      }
      RotateAt(items[..], head, index - beginningIndex);
      r := Ok(items[relativeIndex]);
    }

    /**
     * Overwrites the item with absolute index `index`, under the same
     * strict bounds as GetItem; nothing but that one slot changes.
     */
    method SetItem(index: int, item: T) returns (o: Outcome)
      requires Valid()
      modifies items
      ensures Valid()
      ensures o.Fail? <==> index <= beginningIndex || index >= EndIndex()
      ensures o.Fail? ==> o.error == ArgumentOutOfRange && items[..] == old(items[..])
      ensures o.Pass? ==>
        && 0 < index - beginningIndex < count - 1
        && items[..] == old(items[..])[PhysicalSlot(head, index - beginningIndex, items.Length) := item]
        && Live() == old(Live())[index - beginningIndex := item]
    {
      if index <= beginningIndex || index >= EndIndex() {
        return Fail(ArgumentOutOfRange);
      }
      var relativeIndex := index - beginningIndex;
      relativeIndex := relativeIndex + head;
      if relativeIndex >= items.Length {
        relativeIndex := relativeIndex - items.Length;
      }
      RotateUpdate(items[..], head, index - beginningIndex, item);
      items[relativeIndex] := item;
      o := Pass;
    }

    /** Reads index beginningIndex through GetItem, which never accepts it. */
    method PeekAtBeginning() returns (r: Result<T>)
      requires Valid()
      ensures r == Err(ArgumentOutOfRange)
    {
      r := GetItem(beginningIndex);
    }

    /** Reads index EndIndex() through GetItem, which never accepts it. */
    method PeekAtEnd() returns (r: Result<T>)
      requires Valid()
      ensures r == Err(ArgumentOutOfRange)
    {
      r := GetItem(EndIndex());
    }

    /** The cursor invariant in modular form: both cursors are slots and the tail is `count` slots after the head. */
    lemma TailFollowsHead()
      requires Valid() && items.Length > 0
      ensures 0 <= head < items.Length && 0 <= tail < items.Length
      ensures 0 <= count <= items.Length
      ensures tail == (head + count) % items.Length
    {
      CursorsAreModular(head, count, items.Length);
    }

    /** Enqueue is AddToBeginning. */
    method Enqueue(item: T) returns (r: Result<int>)
      requires Valid()
      modifies this, items
      ensures Valid() && (items == old(items) || fresh(items))
      ensures old(items.Length) == 0 ==>
        r == Err(IndexOutOfRange) && items.Length == 0 && count == 0 && beginningIndex == old(beginningIndex)
      ensures old(items.Length) > 0 ==>
        && r == Ok(old(beginningIndex) - 1)
        && beginningIndex == old(beginningIndex) - 1
        && EndIndex() == old(EndIndex())
        && count == old(count) + 1
      ensures old(count) < old(items.Length) ==>
        && items == old(items) && tail == old(tail) && head == Prev(old(head), items.Length)
        && items[..] == old(items[..])[old(head) := item]
      ensures 0 < old(count) == old(items.Length) ==>
        && fresh(items) && items.Length == 2 * old(count)
        && tail == old(count) && head == items.Length - 1
        && items[..] == Linearised(old(Live()), items.Length, defaultItem)[0 := item]
      ensures 0 < old(count) < old(items.Length) ==>
        Live() == [old(items[..])[head]] + [item] + old(Live())[1..]
      ensures 0 < old(count) == old(items.Length) ==>
        Live() == [defaultItem] + [item] + old(Live())[1..]
      ensures 1 < old(items.Length) && old(count) == 0 ==>
        Live() == [old(items[..])[head]]
      ensures 1 == old(items.Length) && old(count) == 0 ==>
        Live() == [item]
    {
      r := AddToBeginning(item);
    }

    /** Push is AddToBeginning. */
    method Push(item: T) returns (r: Result<int>)
      requires Valid()
      modifies this, items
      ensures Valid() && (items == old(items) || fresh(items))
      ensures old(items.Length) == 0 ==>
        r == Err(IndexOutOfRange) && items.Length == 0 && count == 0 && beginningIndex == old(beginningIndex)
      ensures old(items.Length) > 0 ==>
        && r == Ok(old(beginningIndex) - 1)
        && beginningIndex == old(beginningIndex) - 1
        && EndIndex() == old(EndIndex())
        && count == old(count) + 1
      ensures old(count) < old(items.Length) ==>
        && items == old(items) && tail == old(tail) && head == Prev(old(head), items.Length)
        && items[..] == old(items[..])[old(head) := item]
      ensures 0 < old(count) == old(items.Length) ==>
        && fresh(items) && items.Length == 2 * old(count)
        && tail == old(count) && head == items.Length - 1
        && items[..] == Linearised(old(Live()), items.Length, defaultItem)[0 := item]
      ensures 0 < old(count) < old(items.Length) ==>
        Live() == [old(items[..])[head]] + [item] + old(Live())[1..]
      ensures 0 < old(count) == old(items.Length) ==>
        Live() == [defaultItem] + [item] + old(Live())[1..]
      ensures 1 < old(items.Length) && old(count) == 0 ==>
        Live() == [old(items[..])[head]]
      ensures 1 == old(items.Length) && old(count) == 0 ==>
        Live() == [item]
    {
      r := AddToBeginning(item);
    }

    /** Dequeue is RemoveFromEnd. */
    method Dequeue() returns (r: Result<T>)
      requires Valid()
      modifies this, items
      ensures Valid() && items == old(items)
      ensures old(count) == 0 ==>
        && r == Err(QueueEmpty) && items[..] == old(items[..])
        && head == old(head) && tail == old(tail) && count == 0 && beginningIndex == old(beginningIndex)
      ensures old(count) > 0 ==>
        && r == Ok(old(items[tail]))
        && items[..] == old(items[..])[old(tail) := defaultItem]
        && count == old(count) - 1 && beginningIndex == old(beginningIndex)
        && head == old(head) && tail == Prev(old(tail), items.Length)
        && r == Ok(old(Ring())[if old(count) == items.Length then 0 else old(count)])
      ensures 0 < old(count) < items.Length ==> Live() == old(Live())[..old(count) - 1]
      ensures 0 < old(count) == items.Length ==>
        && r == Ok(old(Live())[0])
        && Live() == old(Live())[0 := defaultItem][..old(count) - 1]
    {
      r := RemoveFromEnd();
    }

    /** Pop is RemoveFromBeginning. */
    method Pop() returns (r: Result<T>)
      requires Valid()
      modifies this, items
      ensures Valid() && items == old(items)
      ensures old(count) == 0 ==>
        && r == Err(QueueEmpty) && items[..] == old(items[..])
        && head == old(head) && tail == old(tail) && count == 0 && beginningIndex == old(beginningIndex)
      ensures old(count) > 0 ==>
        && r == Ok(old(Live())[0])
        && Live() == old(Live())[1..]
        && beginningIndex == old(beginningIndex) + 1 && EndIndex() == old(EndIndex())
        && items[..] == old(items[..])[old(head) := defaultItem]
        && head == Next(old(head), items.Length) && tail == old(tail)
    {
      r := RemoveFromBeginning();
    }

    /**
     * AddToBeginning as evidently intended: step the head back first, then
     * store the item in the new head slot, so that it is put in front of
     * the live items and nothing is overwritten.
     */
    method AddToBeginningCorrected(item: T) returns (r: Result<int>)
      requires Valid()
      modifies this, items
      ensures Valid() && (items == old(items) || fresh(items))
      ensures old(items.Length) == 0 ==>
        r == Err(IndexOutOfRange) && count == 0 && beginningIndex == old(beginningIndex)
      ensures old(items.Length) > 0 ==>
        && r == Ok(old(beginningIndex) - 1)
        && beginningIndex == old(beginningIndex) - 1 && EndIndex() == old(EndIndex())
        && Live() == [item] + old(Live())
    {
      if count == items.Length {
        var _ := SetCapacity(count * 2);
      }
      if items.Length == 0 {
        return Err(IndexOutOfRange);
      }
      StepBackThenWriteHead(items[..], head, count, item);
      DecrementHead();
      items[head] := item;
      r := Ok(beginningIndex);
    }

    /**
     * RemoveFromEnd as evidently intended: step the tail back first, then
     * take and clear the slot of the last live item.
     */
    method RemoveFromEndCorrected() returns (r: Result<T>)
      requires Valid()
      modifies this, items
      ensures Valid() && items == old(items)
      ensures old(count) == 0 ==> r == Err(QueueEmpty) && count == 0 && beginningIndex == old(beginningIndex)
      ensures old(count) > 0 ==>
        && r == Ok(old(Live())[old(count) - 1])
        && Live() == old(Live())[..old(count) - 1]
        && beginningIndex == old(beginningIndex) && EndIndex() == old(EndIndex()) - 1
    {
      if count == 0 {
        return Err(QueueEmpty);
      }
      ClearLast(items[..], head, count, defaultItem);
      DecrementTail();
      var rv := items[tail];
      items[tail] := defaultItem;
      r := Ok(rv);
    }

    /**
     * GetItem as its documentation describes it: every index from
     * beginningIndex to EndIndex() inclusive is accepted.
     */
    method GetItemCorrected(index: int) returns (r: Result<T>)
      requires Valid()
      ensures r.Err? <==> index < beginningIndex || index > EndIndex()
      ensures r.Err? ==> r.error == ArgumentOutOfRange
      ensures r.Ok? ==> 0 <= index - beginningIndex < count && r.value == Live()[index - beginningIndex]
    {
      if index < beginningIndex || index > EndIndex() {
        return Err(ArgumentOutOfRange);
      }
      var relativeIndex := index - beginningIndex;
      relativeIndex := relativeIndex + head;
      if relativeIndex >= items.Length {
        relativeIndex := relativeIndex - items.Length;
      }
      RotateAt(items[..], head, index - beginningIndex);
      r := Ok(items[relativeIndex]);
    }
  }
}
