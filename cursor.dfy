/**
 * Cursor arithmetic of the continuous queue: stepping a cursor forward and
 * backward around a ring of slots, translating a position relative to the
 * head into a physical slot, and the view of a backing array as seen from
 * the head cursor.
 */
module Cursor {

  /** The slot after `i` in a ring of `capacity` slots (the step of IncrementHead and IncrementTail). */
  function Next(i: int, capacity: int): (r: int)
    requires 0 <= i < capacity
    ensures 0 <= r < capacity
    ensures r == i + 1 || (r == 0 && i == capacity - 1)
  {
    if i + 1 == capacity then 0 else i + 1
  }

  /** The slot before `i` in a ring of `capacity` slots (the step of DecrementHead and DecrementTail). */
  function Prev(i: int, capacity: int): (r: int)
    requires 0 <= i < capacity
    ensures 0 <= r < capacity
    ensures r == i - 1 || (r == capacity - 1 && i == 0)
  {
    if i - 1 < 0 then i - 1 + capacity else i - 1
  }

  /**
   * The slot `k` slots after `head`, for `k` up to a full turn, computed
   * as the original does: add, then subtract the capacity once.
   */
  function SlotAfter(head: int, k: int, capacity: int): (r: int)
    requires 0 <= head < capacity && 0 <= k <= capacity
    ensures 0 <= r < capacity
    ensures r == head + k || r == head + k - capacity
  {
    var slot := k + head;
    if slot >= capacity then slot - capacity else slot
  }

  /**
   * The physical slot of the item `relative` positions after the head
   * (GetItem and SetItem); distinct positions give distinct slots.
   */
  function PhysicalSlot(head: int, relative: int, capacity: int): (r: int)
    requires 0 <= head < capacity && 0 <= relative < capacity
    ensures 0 <= r < capacity
    ensures forall j :: 0 <= j < capacity && j != relative ==> SlotAfter(head, j, capacity) != r
  {
    SlotAfter(head, relative, capacity)
  }

  /** A value `a` in [0, 2n) reduced modulo `n` is `a` or `a - n`. */
  lemma WrapOnce(a: int, n: int)
    requires 0 <= a < 2 * n
    ensures a % n == if a < n then a else a - n
  {
    if a >= n {
      assert a == (a - n) + n;
    }
  }

  /** The cursor steps are arithmetic modulo the capacity. */
  lemma CursorsAreModular(i: int, k: int, capacity: int)
    requires 0 <= i < capacity && 0 <= k <= capacity
    ensures Next(i, capacity) == (i + 1) % capacity
    ensures Prev(i, capacity) == (i - 1) % capacity
    ensures SlotAfter(i, k, capacity) == (i + k) % capacity
  {
    WrapOnce(i + 1, capacity);
    WrapOnce(i + k, capacity);
    if i == 0 {
      assert -1 == -1 * capacity + (capacity - 1);
    } else {
      WrapOnce(i - 1, capacity);
    }
  }

  /** The backing array read from slot `h` onwards, wrapping past its end. */
  function Rotate<T>(s: seq<T>, h: int): seq<T>
    requires 0 <= h <= |s|
  {
    s[h..] + s[..h]
  }

  /** The first item of a ring moved to its back. */
  function RotateLeft<T>(ring: seq<T>): seq<T>
    requires |ring| > 0
  {
    ring[1..] + [ring[0]]
  }

  /** The last item of a ring moved to its front. */
  function RotateRight<T>(ring: seq<T>): seq<T>
    requires |ring| > 0
  {
    [ring[|ring| - 1]] + ring[..|ring| - 1]
  }

  /** A backing array of `capacity` slots holding `live` from slot 0 and `blank` in every other slot. */
  function Linearised<T>(live: seq<T>, capacity: int, blank: T): seq<T>
    requires |live| <= capacity
  {
    live + seq(capacity - |live|, _ => blank)
  }

  /** Position `k` of the rotated view is physical slot `(h + k) mod |s|`. */
  lemma RotateAt<T>(s: seq<T>, h: int, k: int)
    requires 0 <= h < |s| && 0 <= k < |s|
    ensures |Rotate(s, h)| == |s|
    ensures Rotate(s, h)[k] == s[PhysicalSlot(h, k, |s|)]
  {
    if h + k < |s| {
      assert Rotate(s, h)[k] == s[h..][k];
    } else {
      assert Rotate(s, h)[k] == s[..h][k - (|s| - h)];
    }
  }

  /** Seen from the head, a write to the slot `k` positions after it changes position `k` only. */
  lemma RotateUpdate<T>(s: seq<T>, h: int, k: int, x: T)
    requires 0 <= h < |s| && 0 <= k < |s|
    ensures Rotate(s[PhysicalSlot(h, k, |s|) := x], h) == Rotate(s, h)[k := x]
  {
    var p := PhysicalSlot(h, k, |s|);
    var s' := s[p := x];
    forall j | 0 <= j < |s|
      ensures Rotate(s', h)[j] == Rotate(s, h)[k := x][j]
    {
      RotateAt(s', h, j);
      RotateAt(s, h, j);
    }
  }

  /** Advancing the head one slot moves the first item of the view to its back. */
  lemma RotateNext<T>(s: seq<T>, h: int)
    requires 0 <= h < |s|
    ensures Rotate(s, Next(h, |s|)) == RotateLeft(Rotate(s, h))
  {
    var n := |s|;
    var h' := Next(h, n);
    forall j | 0 <= j < n
      ensures Rotate(s, h')[j] == RotateLeft(Rotate(s, h))[j]
    {
      RotateAt(s, h', j);
      if j < n - 1 {
        RotateAt(s, h, j + 1);
      } else {
        RotateAt(s, h, 0);
      }
    }
  }

  /** Moving the head back one slot brings the last item of the view to its front. */
  lemma RotatePrev<T>(s: seq<T>, h: int)
    requires 0 <= h < |s|
    ensures Rotate(s, Prev(h, |s|)) == RotateRight(Rotate(s, h))
  {
    var n := |s|;
    var h' := Prev(h, n);
    forall j | 0 <= j < n
      ensures Rotate(s, h')[j] == RotateRight(Rotate(s, h))[j]
    {
      RotateAt(s, h', j);
      if j == 0 {
        RotateAt(s, h, n - 1);
      } else {
        RotateAt(s, h, j - 1);
      }
    }
  }

  /**
   * The `c` items from slot `h` onwards are one run of the array when they
   * do not pass its end, and otherwise its tail end followed by its start:
   * the two cases that SetCapacity copies.
   */
  lemma RotatePrefix<T>(s: seq<T>, h: int, c: int)
    requires 0 <= h < |s| && 0 <= c <= |s|
    ensures h + c <= |s| ==> Rotate(s, h)[..c] == s[h..h + c]
    ensures h + c > |s| ==> Rotate(s, h)[..c] == s[h..] + s[..h + c - |s|]
  {
    if h + c <= |s| {
      assert Rotate(s, h)[..c] == s[h..][..c];
    } else {
      assert Rotate(s, h)[..c] == s[h..] + s[..h][..h + c - |s|];
    }
  }

  /**
   * Copying the `c` items from slot `h` of `s` as one run into the start of
   * a blank array `d` lays out the rotated view followed by blanks.
   */
  lemma CopyOneRun<T>(s: seq<T>, h: int, c: int, d: seq<T>, blank: T)
    requires 0 <= h && 0 < c && h + c <= |s| && c <= |d|
    requires d == seq(|d|, _ => blank)
    ensures d[..0] + s[h..h + c] + d[c..] == Linearised(Rotate(s, h)[..c], |d|, blank)
  {
    RotatePrefix(s, h, c);
    assert d[c..] == seq(|d| - c, _ => blank);
  }

  /**
   * Copying the same items as two runs, first slots `h` to the end of `s`
   * and then slots from 0 on, lays out the same sequence.
   */
  lemma CopyTwoRuns<T>(s: seq<T>, h: int, c: int, d: seq<T>, first: seq<T>, blank: T)
    requires 0 <= h < |s| <= h + c && c <= |s| && c <= |d|
    requires d == seq(|d|, _ => blank) && first == d[..0] + s[h..h + (|s| - h)] + d[|s| - h..]
    ensures first[..|s| - h] + s[0..c - (|s| - h)] + first[c..] == Linearised(Rotate(s, h)[..c], |d|, blank)
  {
    assert first[..|s| - h] == s[h..];
    assert first[c..] == seq(|d| - c, _ => blank);
    if h + c == |s| {
      assert Rotate(s, h)[..c] == s[h..];
    } else {
      RotatePrefix(s, h, c);
    }
  }

  /**
   * Writing `x` at the first position and then stepping the head back (what
   * AddToBeginning does) leaves, in front of the `c` live items, the stale
   * last slot followed by `x` in place of the former first item.
   */
  lemma WriteThenStepBack<T>(ring: seq<T>, c: int, x: T)
    requires 0 < c < |ring|
    ensures RotateRight(ring[0 := x])[..c + 1] == [ring[|ring| - 1]] + [x] + ring[1..c]
  {
    var n := |ring|;
    var r := RotateRight(ring[0 := x]);
    assert r == [ring[n - 1]] + ring[0 := x][..n - 1];
    assert ring[0 := x][..c] == [x] + ring[1..c];
  }

  /**
   * Stepping the head back and then writing `x` at the new first position
   * (the evident intent of AddToBeginning) puts `x` in front of the `c` live items.
   */
  lemma StepBackThenWrite<T>(ring: seq<T>, c: int, x: T)
    requires 0 <= c < |ring|
    ensures RotateRight(ring)[0 := x][..c + 1] == [x] + ring[..c]
  {
    var n := |ring|;
    assert RotateRight(ring)[0 := x] == [x] + ring[..n - 1];
    assert ring[..n - 1][..c] == ring[..c];
  }

  // The effect of each queue operation on the live items, stated on the
  // backing array `s` with head slot `h` and `c` live items.

  /** Writing at the slot `c` after the head (the tail) appends to the live items. */
  lemma WriteAtTail<T>(s: seq<T>, h: int, c: int, x: T)
    requires 0 <= h < |s| && 0 <= c < |s|
    ensures Rotate(s[SlotAfter(h, c, |s|) := x], h)[..c + 1] == Rotate(s, h)[..c] + [x]
  {
    RotateUpdate(s, h, c, x);
    assert Rotate(s, h)[c := x][..c + 1] == Rotate(s, h)[..c] + [x];
  }

  /** Clearing the head slot and advancing the head drops the first live item. */
  lemma ClearHeadThenAdvance<T>(s: seq<T>, h: int, c: int, blank: T)
    requires 0 <= h < |s| && 0 < c <= |s|
    ensures s[h] == Rotate(s, h)[0]
    ensures Rotate(s[h := blank], Next(h, |s|))[..c - 1] == Rotate(s, h)[1..c]
  {
    RotateAt(s, h, 0);
    RotateUpdate(s, h, 0, blank);
    RotateNext(s[h := blank], h);
  }

  /**
   * Writing at the head slot and then stepping the head back (AddToBeginning
   * as written) puts the stale slot before the head in front, and `x` in
   * place of the former first live item.
   */
  lemma WriteHeadThenStepBack<T>(s: seq<T>, h: int, c: int, x: T)
    requires 0 <= h < |s| && 0 < c < |s|
    ensures Rotate(s[h := x], Prev(h, |s|))[..c + 1] == [s[Prev(h, |s|)]] + [x] + Rotate(s, h)[1..c]
  {
    RotateUpdate(s, h, 0, x);
    RotatePrev(s[h := x], h);
    WriteThenStepBack(Rotate(s, h), c, x);
    RotateAt(s, h, |s| - 1);
  }

  /** Stepping the head back and then writing at the new head slot puts `x` in front of the live items. */
  lemma StepBackThenWriteHead<T>(s: seq<T>, h: int, c: int, x: T)
    requires 0 <= h < |s| && 0 <= c < |s|
    ensures Rotate(s[Prev(h, |s|) := x], Prev(h, |s|))[..c + 1] == [x] + Rotate(s, h)[..c]
  {
    var h' := Prev(h, |s|);
    RotateUpdate(s, h', 0, x);
    RotatePrev(s, h);
    StepBackThenWrite(Rotate(s, h), c, x);
  }

  /**
   * Clearing the slot at the tail, `c` slots after the head (RemoveFromEnd
   * as written), clears position `c` of the view when the array is not full
   * and the first live item when it is; either way the slot read is that position.
   */
  lemma ClearAtTail<T>(s: seq<T>, h: int, c: int, blank: T)
    requires 0 <= h < |s| && 0 < c <= |s|
    ensures c < |s| ==> s[SlotAfter(h, c, |s|)] == Rotate(s, h)[c]
    ensures c == |s| ==> s[SlotAfter(h, c, |s|)] == Rotate(s, h)[0]
    ensures c < |s| ==> Rotate(s[SlotAfter(h, c, |s|) := blank], h)[..c - 1] == Rotate(s, h)[..c - 1]
    ensures c == |s| ==> Rotate(s[SlotAfter(h, c, |s|) := blank], h)[..c - 1] == Rotate(s, h)[0 := blank][..c - 1]
  {
    var k := if c == |s| then 0 else c;
    assert SlotAfter(h, c, |s|) == PhysicalSlot(h, k, |s|);
    RotateAt(s, h, k);
    RotateUpdate(s, h, k, blank);
  }

  /** Clearing the slot of the last live item removes exactly that item. */
  lemma ClearLast<T>(s: seq<T>, h: int, c: int, blank: T)
    requires 0 <= h < |s| && 0 < c <= |s|
    ensures s[SlotAfter(h, c - 1, |s|)] == Rotate(s, h)[c - 1]
    ensures Rotate(s[SlotAfter(h, c - 1, |s|) := blank], h)[..c - 1] == Rotate(s, h)[..c - 1]
  {
    RotateAt(s, h, c - 1);
    RotateUpdate(s, h, c - 1, blank);
  }
}
