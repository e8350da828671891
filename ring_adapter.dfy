/**
 * `ring_adapter` of inc/archie/container/ring_adapter.hpp: a container of
 * fixed capacity plus a ring iterator `pos_`. Below capacity `emplace_back`
 * appends and resets the cursor to the front; at capacity it overwrites the
 * element under the cursor (the oldest one) and advances the cursor.
 *
 * The adapted container is a sequence whose capacity `cap` is fixed (the
 * test reserves it up front); its elements sit at positions 0 .. size-1.
 */
module RingAdapter {
  import opened RingIterator

  /** The elements of `c` read in ring order starting at offset `o`. */
  function Rotated(c: seq<int>, o: nat): (r: seq<int>)
    requires |c| > 0
    ensures |r| == |c|
  {
    seq(|c|, k requires 0 <= k < |c| => c[(o + k) % |c|])
  }

  /** Read from offset 0, a sequence is itself. */
  lemma RotatedFromZero(c: seq<int>)
    requires |c| > 0
    ensures Rotated(c, 0) == c
  {
    forall k | 0 <= k < |c| ensures Rotated(c, 0)[k] == c[k] {
      ModSmall(k, |c|);
    }
  }

  /** Overwriting the oldest element and stepping the cursor drops the
      oldest element and appends the new one at the end. */
  lemma {:induction false} RotatedOverwrite(c: seq<int>, o: nat, x: int)
    requires |c| > 0
    ensures Rotated(c[o % |c| := x], o + 1) == Rotated(c, o)[1..] + [x]
  {
    var n := |c|;
    var c' := c[o % n := x];
    var lhs, rhs := Rotated(c', o + 1), Rotated(c, o)[1..] + [x];
    forall k | 0 <= k < n ensures lhs[k] == rhs[k] {
      if k < n - 1 {
        ModShiftDistinct(o, k + 1, n);
        assert o + 1 + k == o + (k + 1);
      } else {
        ModAddPeriod(o, n);
        assert o + 1 + k == o + n;
      }
    }
  }

  /** What `*it, *(it + 1), ..., *(it + |c| - 1)` read from `c` when `it`
      is an iterator over the whole of `c` with a non-negative offset. */
  function Walk(c: seq<int>, it: Iter): (s: seq<int>)
    requires |c| > 0 && it.front == 0 && it.toLast == |c| && it.offset >= 0
    ensures s == Rotated(c, it.offset)
  {
    var s := seq(|c|, k requires 0 <= k < |c| => c[Pos(Advance(it, k))]);
    forall k | 0 <= k < |c| ensures s[k] == Rotated(c, it.offset)[k] {
      CRemNonNegative(it.offset + k, it.toLast);
    }
    s
  }

  /** The adapter's invariant over its capacity, container and cursor: the
      cursor is an iterator over the whole container, and it stays at
      offset 0 until the container is full. */
  ghost predicate RingState(cap: nat, c: seq<int>, pos: Iter)
  {
    && 0 < cap
    && |c| <= cap
    && pos.front == 0
    && pos.toLast == (if |c| == 0 then 1 else |c|)
    && pos.offset >= 0
    && (|c| < cap ==> pos.offset == 0)
  }

  /** What iterating from `begin()` to `end()` reads in that state. */
  function ElementsOf(cap: nat, c: seq<int>, pos: Iter): (s: seq<int>)
    requires RingState(cap, c, pos)
    ensures |s| == |c|
    ensures |c| > 0 ==> s == Rotated(c, pos.offset)
  {
    if |c| == 0 then [] else Walk(c, pos)
  }

  /** The state after `emplace_back(x)`: below capacity the container grows
      and the cursor is rebuilt at offset 0; at capacity `*pos_++ = x`
      overwrites the slot under the cursor and steps the cursor. */
  function Push(cap: nat, c: seq<int>, pos: Iter, x: int): (r: (seq<int>, Iter))
    requires RingState(cap, c, pos)
    ensures RingState(cap, r.0, r.1)
    ensures |r.0| == if |c| < cap then |c| + 1 else cap
  {
    if |c| != cap then
      (c + [x], FromRange(|c| + 1, 0))
    else
      var (at, next) := PostIncrement(pos);
      CRemNonNegative(at.offset, at.toLast);
      (c[Pos(at) := x], next)
  }

  /** `emplace_back` below capacity appends the new element last in ring
      order; at capacity it drops the oldest element and the new one comes
      last. */
  lemma EmplaceBackInRingOrder(cap: nat, c: seq<int>, pos: Iter, x: int)
    requires RingState(cap, c, pos)
    ensures ElementsOf(cap, Push(cap, c, pos, x).0, Push(cap, c, pos, x).1)
            == if |c| < cap then ElementsOf(cap, c, pos) + [x]
               else ElementsOf(cap, c, pos)[1..] + [x]
  {
    if |c| < cap {
      RotatedFromZero(c + [x]);
      if |c| > 0 {
        RotatedFromZero(c);
      }
    } else {
      CRemNonNegative(pos.offset, pos.toLast);
      RotatedOverwrite(c, pos.offset, x);
    }
  }

  /** `*begin()` is the oldest element, the first one iteration reads. */
  lemma BeginIsOldest(cap: nat, c: seq<int>, pos: Iter)
    requires RingState(cap, c, pos) && |c| > 0
    ensures 0 <= Pos(pos) < |c|
    ensures c[Pos(pos)] == ElementsOf(cap, c, pos)[0]
  {
    CRemNonNegative(pos.offset, pos.toLast);
    assert Advance(pos, 0) == pos;
  }

  class Ring {
    /** The capacity of the adapted container. */
    const cap: nat
    /** `container_`. */
    var container: seq<int>
    /** `pos_`, the iterator at the oldest element. */
    var pos: Iter

    ghost predicate Valid()
      reads this
    {
      RingState(cap, container, pos)
    }

    /** `ring_adapter(args...)` over an empty container of the given
        capacity: `pos_(container_, 0)`. A capacity of 0 would make the
        first `emplace_back` write into an empty container. */
    constructor (capacity: nat)
      requires capacity > 0
      ensures Valid() && cap == capacity
      ensures container == [] && pos == FromRange(0, 0)
    {
      cap := capacity;
      container := [];
      pos := FromRange(0, 0);
    }

    /** `ring_adapter(args...)` whose arguments build a container already
        holding `init`: the cursor is `pos_(container_, 0)` over it, so
        iteration reads `init` in order, even when it starts full. */
    constructor FromContainer(capacity: nat, init: seq<int>)
      requires 0 < capacity && |init| <= capacity
      ensures Valid() && cap == capacity
      ensures container == init && pos == FromRange(|init|, 0)
      ensures Elements() == init
    {
      cap := capacity;
      container := init;
      pos := FromRange(|init|, 0);
      new;
      FrontReadsInOrder(capacity, init);
    }

    function Size(): nat
      reads this
    {
      |container|
    }

    function Capacity(): (n: nat)
      reads this
      requires Valid()
      ensures Size() <= n
    {
      cap
    }

    function Empty(): (b: bool)
      reads this
      ensures b <==> Size() == 0
    {
      |container| == 0
    }

    /** `begin()`: the cursor. */
    function Begin(): Iter
      reads this
    {
      pos
    }

    /** `end()`: `begin() + size()`. */
    function End(): (e: Iter)
      reads this
      ensures Diff(e, Begin()) == Size()
    {
      Advance(Begin(), Size())
    }

    /** `begin() const`: a fresh iterator at offset 0, not the cursor. */
    function ConstBegin(): (b: Iter)
      reads this
      ensures b.offset == 0 && b.front == 0
    {
      FromRange(|container|, 0)
    }

    /** `end() const`: `begin() + size()` on the const iterator. */
    function ConstEnd(): (e: Iter)
      reads this
      ensures Diff(e, ConstBegin()) == Size()
    {
      Advance(ConstBegin(), Size())
    }

    /** `*it` for an iterator into the container. */
    function Read(it: Iter): int
      reads this
      requires 0 <= Pos(it) < |container|
    {
      container[Pos(it)]
    }

    /** `*begin()`: the oldest element, the first one iteration reads. */
    function Front(): (x: int)
      reads this
      requires Valid() && Size() > 0
      ensures x == Elements()[0]
    {
      BeginIsOldest(cap, container, pos);
      Read(Begin())
    }

    /** What iterating from `begin()` to `end()` reads. */
    function Elements(): (s: seq<int>)
      reads this
      requires Valid()
      ensures |s| == Size()
    {
      ElementsOf(cap, container, pos)
    }

    /** `emplace_back`: the transition `Push`, which appends while below
        capacity and otherwise overwrites the oldest element through
        `*pos_++`. */
    method EmplaceBack(x: int)
      requires Valid()
      modifies this
      ensures Valid()
      ensures (container, pos) == Push(cap, old(container), old(pos), x)
    {
      var next := Push(cap, container, pos, x);
      container, pos := next.0, next.1;
    }
  }

  /** Below capacity the cursor is rebuilt at the front after every push,
      so `*begin()` keeps reading the first element pushed. */
  lemma PushBelowCapacity(cap: nat, c: seq<int>, x: int)
    requires 0 < cap && |c| < cap
    ensures RingState(cap, c, FromRange(|c|, 0))
    ensures Push(cap, c, FromRange(|c|, 0), x) == (c + [x], FromRange(|c| + 1, 0))
    ensures Pos(FromRange(|c| + 1, 0)) == 0
  {
  }

  /** The state after `emplace_back` of each of `xs` in turn. */
  function PushAll(cap: nat, c: seq<int>, pos: Iter, xs: seq<int>): (r: (seq<int>, Iter))
    requires RingState(cap, c, pos)
    ensures RingState(cap, r.0, r.1)
    decreases |xs|
  {
    if |xs| == 0 then (c, pos)
    else
      var next := Push(cap, c, pos, xs[0]);
      PushAll(cap, next.0, next.1, xs[1..])
  }

  /** Filling up to capacity appends the values in order and leaves the
      cursor at the front. */
  lemma {:induction false} FillInOrder(cap: nat, c: seq<int>, xs: seq<int>)
    requires 0 < cap && |c| + |xs| <= cap
    ensures RingState(cap, c, FromRange(|c|, 0))
    ensures PushAll(cap, c, FromRange(|c|, 0), xs) == (c + xs, FromRange(|c| + |xs|, 0))
    decreases |xs|
  {
    if |xs| > 0 {
      var c' := c + [xs[0]];
      PushBelowCapacity(cap, c, xs[0]);
      assert |c'| == |c| + 1;
      FillInOrder(cap, c', xs[1..]);
      assert c' + xs[1..] == c + xs;
    } else {
      assert c + xs == c;
    }
  }

  /** With the cursor at the front, iteration reads the container in
      order: what was pushed, in the order pushed. */
  lemma FrontReadsInOrder(cap: nat, c: seq<int>)
    requires RingState(cap, c, FromRange(|c|, 0))
    ensures ElementsOf(cap, c, FromRange(|c|, 0)) == c
  {
    if |c| > 0 {
      RotatedFromZero(c);
    }
  }

  /** At capacity the push overwrites the slot `offset % cap` and steps the
      cursor by one. */
  lemma PushAtCapacity(c: seq<int>, o: nat, x: int)
    requires |c| > 0
    ensures RingState(|c|, c, Iter(0, |c|, o))
    ensures Push(|c|, c, Iter(0, |c|, o), x) == (c[o % |c| := x], Iter(0, |c|, o + 1))
  {
    CRemNonNegative(o, |c|);
  }

  /** The last `cap` values of a history of pushes, oldest first. */
  function Keep(cap: nat, h: seq<int>): (r: seq<int>)
    ensures |r| == if |h| < cap then |h| else cap
    ensures r == h[|h| - |r|..]
  {
    if |h| <= cap then h else h[|h| - cap..]
  }

  /** One push keeps a ring that holds the last `cap` values of a history
      holding the last `cap` values of the history extended by the new
      value. */
  lemma PushKeepsNewest(cap: nat, c: seq<int>, pos: Iter, hist: seq<int>, x: int)
    requires RingState(cap, c, pos) && ElementsOf(cap, c, pos) == Keep(cap, hist)
    ensures ElementsOf(cap, Push(cap, c, pos, x).0, Push(cap, c, pos, x).1) == Keep(cap, hist + [x])
  {
    EmplaceBackInRingOrder(cap, c, pos, x);
    if |c| < cap {
      assert Keep(cap, hist) == hist;
    } else {
      assert Keep(cap, hist)[1..] + [x] == Keep(cap, hist + [x]);
    }
  }

  /** A ring whose iteration reads the last `cap` values of a history keeps
      doing so while values are pushed: it always holds the newest `cap`
      values, oldest first. */
  lemma {:induction false} PushAllKeepsNewest(cap: nat, c: seq<int>, pos: Iter, hist: seq<int>, xs: seq<int>)
    requires RingState(cap, c, pos) && ElementsOf(cap, c, pos) == Keep(cap, hist)
    ensures ElementsOf(cap, PushAll(cap, c, pos, xs).0, PushAll(cap, c, pos, xs).1) == Keep(cap, hist + xs)
    decreases |xs|
  {
    if |xs| == 0 {
      assert hist + xs == hist;
    } else {
      var next := Push(cap, c, pos, xs[0]);
      var h := hist + [xs[0]];
      assert h + xs[1..] == hist + xs;
      PushKeepsNewest(cap, c, pos, hist, xs[0]);
      PushAllKeepsNewest(cap, next.0, next.1, h, xs[1..]);
    }
  }

  /** From an empty adapter, iteration reads the last `cap` values pushed,
      oldest first. */
  lemma KeepsNewestFromEmpty(cap: nat, xs: seq<int>)
    requires 0 < cap
    ensures RingState(cap, [], FromRange(0, 0))
    ensures ElementsOf(cap, PushAll(cap, [], FromRange(0, 0), xs).0, PushAll(cap, [], FromRange(0, 0), xs).1) == Keep(cap, xs)
  {
    PushAllKeepsNewest(cap, [], FromRange(0, 0), [], xs);
    assert [] + xs == xs;
  }

  /** The adapter test with capacity 4: after the pushes 0, 1, 2, 3 the
      container is full with the cursor at the front; the fifth push keeps
      the size at 4, overwrites the oldest element and steps the cursor. */
  lemma AdapterTestOverwrite()
    ensures PushAll(4, [], FromRange(0, 0), [0, 1, 2, 3]) == ([0, 1, 2, 3], Iter(0, 4, 0))
    ensures Push(4, [0, 1, 2, 3], Iter(0, 4, 0), 3) == ([3, 1, 2, 3], Iter(0, 4, 1))
  {
    FillInOrder(4, [], [0, 1, 2, 3]);
    assert [] + [0, 1, 2, 3] == [0, 1, 2, 3];
    PushAtCapacity([0, 1, 2, 3], 0, 3);
    assert [0, 1, 2, 3][0 := 3] == [3, 1, 2, 3];
  }

  /** After the fifth push `*begin()` reads slot 1, which holds 1, while
      `begin() const` still reads slot 0, which now holds the fifth
      value. */
  lemma AdapterTestReads()
    ensures Pos(Iter(0, 4, 1)) == 1 && [3, 1, 2, 3][Pos(Iter(0, 4, 1))] == 1
    ensures Pos(FromRange(4, 0)) == 0 && [3, 1, 2, 3][Pos(FromRange(4, 0))] == 3
  {
  }

  /** Iteration over the full ring before and after the fifth push reads
      the four newest values, oldest first. */
  lemma AdapterTestOrder()
    ensures ElementsOf(4, [0, 1, 2, 3], Iter(0, 4, 0)) == [0, 1, 2, 3]
    ensures ElementsOf(4, [3, 1, 2, 3], Iter(0, 4, 1)) == [1, 2, 3, 3]
  {
    var c, d := [0, 1, 2, 3], [3, 1, 2, 3];
    RotatedFromZero(c);
    assert c[0 % 4 := 3] == d;
    RotatedOverwrite(c, 0, 3);
    assert Rotated(d, 1) == c[1..] + [3] == [1, 2, 3, 3];
  }
}
