/**
 * Clients of ContinuousQueue that use nothing but its contracts: the
 * first-in first-out behaviour of AddToEnd and RemoveFromBeginning, the
 * numbering of items, indexed access across capacity growth, and small
 * concrete runs that show what the operations do on given inputs.
 */
module QueueScenarios {
  import opened Cursor
  import opened Collections

  /**
   * Appends every item of `xs` with AddToEnd, in order, and returns the
   * result of each call: consecutive indices from one past the former
   * EndIndex(). The backing array is kept when the items fit.
   */
  method AppendAll<T>(q: ContinuousQueue<T>, xs: seq<T>) returns (indices: seq<Result<int>>)
    requires q.Valid() && q.items.Length > 0
    modifies q, q.items
    ensures q.Valid() && q.items.Length > 0 && (q.items == old(q.items) || fresh(q.items))
    ensures q.beginningIndex == old(q.beginningIndex) && q.Live() == old(q.Live()) + xs
    ensures |indices| == |xs| && forall j :: 0 <= j < |xs| ==> indices[j] == Ok(old(q.EndIndex()) + 1 + j)
    ensures old(q.count) + |xs| <= old(q.items.Length) ==> q.items == old(q.items) && q.head == old(q.head)
  {
    indices := [];
    var i := 0;
    while i < |xs|
      invariant 0 <= i <= |xs|
      invariant q.Valid() && q.items.Length > 0 && (q.items == old(q.items) || fresh(q.items))
      invariant q.beginningIndex == old(q.beginningIndex) && q.Live() == old(q.Live()) + xs[..i]
      invariant |indices| == i && forall j :: 0 <= j < i ==> indices[j] == Ok(old(q.EndIndex()) + 1 + j)
      invariant old(q.count) + |xs| <= old(q.items.Length) ==> q.items == old(q.items) && q.head == old(q.head)
    {
      var r := q.AddToEnd(xs[i]);
      indices := indices + [r];
      assert xs[..i + 1] == xs[..i] + [xs[i]];
      i := i + 1;
    }
    assert xs[..i] == xs;
  }

  /** The suffix from `i` on, without its first item, is the suffix from `i + 1` on. */
  lemma DropFront<T>(s: seq<T>, rest: seq<T>, i: int)
    requires 0 <= i < |s| && rest == s[i..]
    ensures |rest| > 0 && rest[0] == s[i] && rest[1..] == s[i + 1..]
  {
  }

  /**
   * Removes `n` items with RemoveFromBeginning and returns the result of
   * each call: the first `n` live items, in order. The head moves `n` slots
   * forward and the beginning index rises by `n`.
   */
  method RemoveFromBeginningN<T>(q: ContinuousQueue<T>, n: nat) returns (removed: seq<Result<T>>)
    requires q.Valid() && n <= q.count
    modifies q, q.items
    ensures q.Valid() && q.items == old(q.items)
    ensures q.Live() == old(q.Live())[n..] && q.beginningIndex == old(q.beginningIndex) + n
    ensures |removed| == n && forall j :: 0 <= j < n ==> removed[j] == Ok(old(q.Live())[j])
    ensures q.items.Length > 0 ==> q.head == SlotAfter(old(q.head), n, q.items.Length)
  {
    removed := [];
    var i := 0;
    while i < n
      invariant 0 <= i <= n
      invariant q.Valid() && q.items == old(q.items)
      invariant q.Live() == old(q.Live())[i..] && q.beginningIndex == old(q.beginningIndex) + i
      invariant |removed| == i && forall j :: 0 <= j < i ==> removed[j] == Ok(old(q.Live())[j])
      invariant q.items.Length > 0 ==> q.head == SlotAfter(old(q.head), i, q.items.Length)
    {
      ghost var before := q.Live();
      DropFront(old(q.Live()), before, i);
      var r := q.RemoveFromBeginning();
      removed := removed + [r];
      i := i + 1;
    }
  }

  /**
   * Items appended with AddToEnd to a new queue get absolute indices
   * 0, 1, 2, ... and come back from RemoveFromBeginning in the order they
   * went in, across every wraparound and capacity doubling on the way;
   * once they are all back, one more removal fails with QueueEmpty.
   */
  method FifoRoundTrip<T>(xs: seq<T>, capacity: nat, blank: T)
    returns (indices: seq<Result<int>>, ys: seq<Result<T>>, last: Result<T>)
    requires capacity > 0
    ensures |indices| == |xs| && forall j :: 0 <= j < |xs| ==> indices[j] == Ok(j)
    ensures |ys| == |xs| && forall j :: 0 <= j < |xs| ==> ys[j] == Ok(xs[j])
    ensures last == Err(QueueEmpty)
  {
    var q := new ContinuousQueue<T>(blank, capacity);
    indices := AppendAll(q, xs);
    assert q.Live() == xs;
    ys := RemoveFromBeginningN(q, |xs|);
    last := q.RemoveFromBeginning();
  }

  /**
   * An item written with SetItem is read back by GetItem at the same
   * absolute index after further appends, even though the appends double
   * the capacity and move every item to another slot.
   */
  method IndexedRoundTrip<T>(xs: seq<T>, more: seq<T>, k: int, x: T, blank: T)
    returns (written: Outcome, read: Result<T>)
    requires 0 < k < |xs| - 1
    ensures written == Pass && read == Ok(x)
  {
    var q := new ContinuousQueue<T>(blank, 1);
    var _ := AppendAll(q, xs);
    written := q.SetItem(k, x);
    var _ := AppendAll(q, more);
    read := q.GetItem(k);
  }

  /**
   * A queue of capacity 2 receives 10, 20 and 30 at its end, numbered 0, 1
   * and 2; the third append doubles the capacity to 4.
   */
  method GrownQueue() returns (q: ContinuousQueue<int>, i0: Result<int>, i1: Result<int>, i2: Result<int>)
    ensures fresh(q) && fresh(q.items) && q.Valid()
    ensures i0 == Ok(0) && i1 == Ok(1) && i2 == Ok(2)
    ensures q.items.Length == 4 && q.Live() == [10, 20, 30] && q.beginningIndex == 0
  {
    q := new ContinuousQueue<int>(0, 2);
    i0 := q.AddToEnd(10);
    i1 := q.AddToEnd(20);
    assert q.Live() == [10, 20] && q.count == q.items.Length == 2;
    i2 := q.AddToEnd(30);
  }

  /**
   * On the grown queue above only the middle index can be read, the first
   * and the last are refused; after the front item is removed its index is
   * refused too.
   */
  method AppendGrowReadExample()
    returns (i0: Result<int>, i1: Result<int>, i2: Result<int>, capacity: int,
             g0: Result<int>, g1: Result<int>, g2: Result<int>, front: Result<int>, after: Result<int>)
    ensures i0 == Ok(0) && i1 == Ok(1) && i2 == Ok(2) && capacity == 4
    ensures g0 == Err(ArgumentOutOfRange) && g1 == Ok(20) && g2 == Err(ArgumentOutOfRange)
    ensures front == Ok(10) && after == Err(ArgumentOutOfRange)
  {
    var q;
    q, i0, i1, i2 := GrownQueue();
    capacity := q.Capacity();
    g0 := q.GetItem(0);
    g1 := q.GetItem(1);
    g2 := q.GetItem(2);
    front := q.RemoveFromBeginning();
    after := q.GetItem(0);
  }

  /** A queue of capacity 4 filled with 1, 2, 3, 4 that has lost 1 and 2 at the front. */
  method DrainedQueue() returns (q: ContinuousQueue<int>, removed: seq<Result<int>>)
    ensures fresh(q) && fresh(q.items) && q.Valid() && q.items.Length == 4
    ensures removed == [Ok(1), Ok(2)]
    ensures q.Live() == [3, 4] && q.beginningIndex == 2 && q.head == 2 && q.count == 2
  {
    q := new ContinuousQueue<int>(0, 4);
    var _ := AppendAll(q, [1, 2, 3, 4]);
    assert q.Live() == [1, 2, 3, 4] && q.head == 0;
    removed := RemoveFromBeginningN(q, 2);
  }

  /**
   * The drained queue above receives 5 and 6 at the end, which wrap round
   * to slots 0 and 1: the live items 3, 4, 5, 6 carry indices 2 to 5 and
   * both cursors stand at slot 2.
   */
  method WrappedQueue() returns (q: ContinuousQueue<int>, removed: seq<Result<int>>, added: seq<Result<int>>)
    ensures fresh(q) && fresh(q.items) && q.Valid() && q.items.Length == 4
    ensures removed == [Ok(1), Ok(2)] && added == [Ok(4), Ok(5)]
    ensures q.Live() == [3, 4, 5, 6] && q.beginningIndex == 2 && q.head == 2 && q.tail == 2
  {
    q, removed := DrainedQueue();
    added := AppendAll(q, [5, 6]);
    assert q.count == 4 && q.head == 2;
  }

  /**
   * On the wrapped queue above, GetItem serves the inner indices 3 and 4
   * and refuses the outer ones 2 and 5.
   */
  method WraparoundExample()
    returns (removed: seq<Result<int>>, added: seq<Result<int>>, head: int, tail: int,
             inner: seq<Result<int>>, outer: seq<Result<int>>)
    ensures removed == [Ok(1), Ok(2)] && added == [Ok(4), Ok(5)]
    ensures head == 2 && tail == 2
    ensures inner == [Ok(4), Ok(5)]
    ensures outer == [Err(ArgumentOutOfRange), Err(ArgumentOutOfRange)]
  {
    var q;
    q, removed, added := WrappedQueue();
    head, tail := q.head, q.tail;
    var g3 := q.GetItem(3);
    var g4 := q.GetItem(4);
    inner := [g3, g4];
    var g2 := q.GetItem(2);
    var g5 := q.GetItem(5);
    outer := [g2, g5];
  }

  /**
   * AddToBeginning on a queue holding 1, 2 (capacity 4, empty slots 0):
   * it reports index -1, but the three items then removed from the front
   * are 0, 3, 2. The front item 1 was overwritten by 3, and the empty slot
   * before it became the new front item.
   */
  method AddToBeginningExample() returns (index: Result<int>, removed: seq<Result<int>>)
    ensures index == Ok(-1)
    ensures removed == [Ok(0), Ok(3), Ok(2)]
  {
    var q := new ContinuousQueue<int>(0, 4);
    var _ := q.AddToEnd(1);
    var _ := q.AddToEnd(2);
    index := q.AddToBeginning(3);
    removed := RemoveFromBeginningN(q, 3);
  }

  /**
   * RemoveFromEnd on a queue holding 1, 2 (capacity 4, empty slots 0)
   * returns the free slot's 0 instead of 2 and steps the tail back onto the
   * slot of 2, which drops 2 from the live range; the front removal that
   * follows returns 1 and empties the queue, so in this run 2 is not
   * returned.
   */
  method RemoveFromEndExample() returns (results: seq<Result<int>>)
    ensures results == [Ok(0), Ok(1), Err(QueueEmpty)]
  {
    var q := new ContinuousQueue<int>(0, 4);
    var _ := q.AddToEnd(1);
    var _ := q.AddToEnd(2);
    var e := q.RemoveFromEnd();
    var b := q.RemoveFromBeginning();
    var x := q.RemoveFromEnd();
    results := [e, b, x];
  }

  /**
   * A queue created with a negative capacity has no slot; growth doubles the
   * count 0 to 0, so neither end can take an item and the capacity stays 0.
   */
  method ZeroCapacityExample() returns (results: seq<Result<int>>, capacity: int)
    ensures results == [Err(IndexOutOfRange), Err(IndexOutOfRange)] && capacity == 0
  {
    var q := new ContinuousQueue<int>(0, -5);
    var e := q.AddToEnd(1);
    var b := q.AddToBeginning(2);
    results := [e, b];
    capacity := q.Capacity();
  }

  /**
   * Two RemoveFromEnd calls on the same queue: each returns the slot one
   * past the last item, so the item 2 comes back one call late, and the
   * item 1 is dropped from the live range without being returned.
   */
  method RemoveFromEndTwiceExample() returns (results: seq<Result<int>>)
    ensures results == [Ok(0), Ok(2), Err(QueueEmpty)]
  {
    var q := new ContinuousQueue<int>(0, 4);
    var _ := q.AddToEnd(1);
    var _ := q.AddToEnd(2);
    var e := q.RemoveFromEnd();
    var f := q.RemoveFromEnd();
    var x := q.RemoveFromBeginning();
    results := [e, f, x];
  }

  /**
   * RemoveFromEnd on a full queue holding 1, 2 (capacity 2) returns the
   * FRONT item 1 and clears its slot, so the front then reads 0.
   */
  method RemoveFromEndFullExample() returns (results: seq<Result<int>>)
    ensures results == [Ok(1), Ok(0), Err(QueueEmpty)]
  {
    var q := new ContinuousQueue<int>(0, 2);
    var _ := AppendAll(q, [1, 2]);
    var e := q.RemoveFromEnd();
    var b := q.RemoveFromBeginning();
    var x := q.RemoveFromBeginning();
    results := [e, b, x];
  }

  /**
   * The order in which items put in front one by one, `s[0]` first, end up
   * in the queue: the last one first.
   */
  function FrontOrder<T>(s: seq<T>): seq<T>
  {
    if |s| == 0 then [] else [s[|s| - 1]] + FrontOrder(s[..|s| - 1])
  }

  /** The front order keeps every item: position `j` holds item `|s| - 1 - j`. */
  lemma {:induction false} FrontOrderAt<T>(s: seq<T>, j: int)
    requires 0 <= j < |s|
    ensures |FrontOrder(s)| == |s|
    ensures FrontOrder(s)[j] == s[|s| - 1 - j]
  {
    if |s| > 1 {
      FrontOrderAt(s[..|s| - 1], if j > 0 then j - 1 else 0);
    }
  }

  /** One more item put in front of the front order of a prefix gives the front order of the longer prefix. */
  lemma FrontOrderPrepend<T>(xs: seq<T>, i: int, rest: seq<T>)
    requires 0 <= i < |xs|
    ensures [xs[i]] + (FrontOrder(xs[..i]) + rest) == FrontOrder(xs[..i + 1]) + rest
  {
    assert xs[..i + 1][..i] == xs[..i];
  }

  /**
   * Puts every item of `xs` in front with AddToBeginningCorrected, in order,
   * so that the last one ends up first.
   */
  method PushAllFront<T>(q: ContinuousQueue<T>, xs: seq<T>)
    requires q.Valid() && q.items.Length > 0
    modifies q, q.items
    ensures q.Valid() && q.items.Length > 0 && (q.items == old(q.items) || fresh(q.items))
    ensures q.Live() == FrontOrder(xs) + old(q.Live())
  {
    var i := 0;
    while i < |xs|
      invariant 0 <= i <= |xs|
      invariant q.Valid() && q.items.Length > 0 && (q.items == old(q.items) || fresh(q.items))
      invariant q.Live() == FrontOrder(xs[..i]) + old(q.Live())
    {
      var _ := q.AddToBeginningCorrected(xs[i]);
      FrontOrderPrepend(xs, i, old(q.Live()));
      i := i + 1;
    }
    assert xs[..i] == xs;
  }

  /**
   * Removes `n` items with RemoveFromEndCorrected and returns the result of
   * each call: the last `n` live items, last one first.
   */
  method RemoveFromEndN<T>(q: ContinuousQueue<T>, n: nat) returns (removed: seq<Result<T>>)
    requires q.Valid() && n <= q.count
    modifies q, q.items
    ensures q.Valid() && q.items == old(q.items)
    ensures q.Live() == old(q.Live())[..old(q.count) - n]
    ensures |removed| == n && forall j :: 0 <= j < n ==> removed[j] == Ok(old(q.Live())[old(q.count) - 1 - j])
  {
    removed := [];
    var i := 0;
    while i < n
      invariant 0 <= i <= n
      invariant q.Valid() && q.items == old(q.items) && q.count == old(q.count) - i
      invariant q.Live() == old(q.Live())[..old(q.count) - i]
      invariant |removed| == i && forall j :: 0 <= j < i ==> removed[j] == Ok(old(q.Live())[old(q.count) - 1 - j])
    {
      var r := q.RemoveFromEndCorrected();
      removed := removed + [r];
      i := i + 1;
    }
  }

  /** Reading the front order from its back end gives the items in the order they were put in front. */
  lemma BackOrderUndoesFrontOrder<T>(xs: seq<T>, ys: seq<Result<T>>)
    requires |ys| == |xs| == |FrontOrder(xs)|
    requires forall j :: 0 <= j < |xs| ==> ys[j] == Ok(FrontOrder(xs)[|xs| - 1 - j])
    ensures forall j :: 0 <= j < |xs| ==> ys[j] == Ok(xs[j])
  {
    forall j | 0 <= j < |xs|
      ensures ys[j] == Ok(xs[j])
    {
      FrontOrderAt(xs, |xs| - 1 - j);
    }
  }

  /**
   * With the corrected operations the queue also works the other way round:
   * items put in front with AddToBeginningCorrected come back from
   * RemoveFromEndCorrected in the order they went in, across wraparound and
   * capacity doubling; one more removal then fails with QueueEmpty.
   */
  method FrontToBackRoundTrip<T>(xs: seq<T>, capacity: nat, blank: T) returns (ys: seq<Result<T>>, last: Result<T>)
    requires capacity > 0
    ensures |ys| == |xs| && forall j :: 0 <= j < |xs| ==> ys[j] == Ok(xs[j])
    ensures last == Err(QueueEmpty)
  {
    var q := new ContinuousQueue<T>(blank, capacity);
    PushAllFront(q, xs);
    if |xs| > 0 {
      FrontOrderAt(xs, 0);
    }
    ys := RemoveFromEndN(q, |xs|);
    BackOrderUndoesFrontOrder(xs, ys);
    last := q.RemoveFromEndCorrected();
  }

  /**
   * The grown queue holding 10, 20, 30 under the corrected operations: every
   * live index from 0 to 2 can be read, an item put in front gets index -1
   * and is readable there, and the back removal returns 30.
   */
  method CorrectedExample() returns (items: seq<Result<int>>, front: Result<int>, back: Result<int>, first: Result<int>)
    ensures items == [Ok(10), Ok(20), Ok(30)]
    ensures front == Ok(-1) && back == Ok(30) && first == Ok(5)
  {
    var q, _, _, _ := GrownQueue();
    var g0 := q.GetItemCorrected(0);
    var g1 := q.GetItemCorrected(1);
    var g2 := q.GetItemCorrected(2);
    items := [g0, g1, g2];
    front := q.AddToBeginningCorrected(5);
    back := q.RemoveFromEndCorrected();
    first := q.GetItemCorrected(-1);
  }
}
