/**
 * The fixed-capacity buffer of test/dynamic_array_test.cpp: the generic
 * `base_buffer` algorithms (emplace_back, pop_back, clear, the rebalancing
 * `assign`, comparisons) instantiated over the inline `stack_buffer<T, N>`.
 *
 * Elements are integers. The `end_` cursor is kept as the index `cursor` of
 * the first unconstructed slot. Slot lifetime (placement-new / explicit
 * destructor calls) is tracked by the ghost flags `live`, and every
 * construction, destruction and element assignment is counted by ghost
 * counters so that the churn of `assign` can be stated.
 */
module Buffer {

  function Min(a: int, b: int): int { if a <= b then a else b }

  /** max(0, a - b) */
  function Surplus(a: int, b: int): nat { if a > b then a - b else 0 }

  /** The transform `f` of `assign` applied to every element of a range. */
  function Map(f: int -> int, s: seq<int>): (r: seq<int>)
    ensures |r| == |s|
    ensures forall k :: 0 <= k < |s| ==> r[k] == f(s[k])
  {
    seq(|s|, k requires 0 <= k < |s| => f(s[k]))
  }

  // ---------------------------------------------------------------------
  // std::equal and std::lexicographical_compare on two ranges
  // ---------------------------------------------------------------------

  /** std::equal over two full ranges: same length and pairwise equal. */
  function Equal(a: seq<int>, b: seq<int>): (r: bool)
    ensures r <==> |a| == |b| && forall k :: 0 <= k < |a| ==> a[k] == b[k]
  {
    if |a| == 0 || |b| == 0 then |a| == 0 && |b| == 0
    else a[0] == b[0] && Equal(a[1..], b[1..])
  }

  /** std::lexicographical_compare, following its loop: the second range
      running out first (or together) means "not less". */
  function LexLess(a: seq<int>, b: seq<int>): bool
  {
    if |b| == 0 then false
    else if |a| == 0 then true
    else if a[0] < b[0] then true
    else if b[0] < a[0] then false
    else LexLess(a[1..], b[1..])
  }

  /** `a` and `b` agree on their first `k` elements and `a` is smaller at
      position `k`, or `a` ends there while `b` goes on. */
  ghost predicate SmallerAt(a: seq<int>, b: seq<int>, k: nat)
  {
    k <= |a| && k < |b| && a[..k] == b[..k] && (k == |a| || a[k] < b[k])
  }

  /** The usual textbook definition of lexicographic order. */
  lemma {:induction false} LexLessIff(a: seq<int>, b: seq<int>)
    ensures LexLess(a, b) <==> exists k: nat :: SmallerAt(a, b, k)
  {
    if |b| == 0 {
    } else if |a| == 0 {
      assert SmallerAt(a, b, 0);
    } else if a[0] < b[0] {
      assert SmallerAt(a, b, 0);
    } else if b[0] < a[0] {
      forall k: nat ensures !SmallerAt(a, b, k) {
      }
    } else {
      LexLessIff(a[1..], b[1..]);
      if LexLess(a, b) {
        var k: nat :| SmallerAt(a[1..], b[1..], k);
        assert a[..k + 1] == [a[0]] + a[1..][..k];
        assert b[..k + 1] == [b[0]] + b[1..][..k];
        assert SmallerAt(a, b, k + 1);
      } else {
        forall k: nat | SmallerAt(a, b, k) ensures false {
          if k > 0 {
            assert a[1..][..k - 1] == a[..k][1..];
            assert b[1..][..k - 1] == b[..k][1..];
            assert SmallerAt(a[1..], b[1..], k - 1);
          }
        }
      }
    }
  }

  lemma {:induction false} LexLessIrreflexive(a: seq<int>)
    ensures !LexLess(a, a)
  {
    if |a| > 0 {
      LexLessIrreflexive(a[1..]);
    }
  }

  lemma {:induction false} LexLessAsymmetric(a: seq<int>, b: seq<int>)
    requires LexLess(a, b)
    ensures !LexLess(b, a)
  {
    if |a| > 0 && |b| > 0 && a[0] == b[0] {
      LexLessAsymmetric(a[1..], b[1..]);
    }
  }

  lemma {:induction false} LexLessTransitive(a: seq<int>, b: seq<int>, c: seq<int>)
    requires LexLess(a, b) && LexLess(b, c)
    ensures LexLess(a, c)
  {
    if |a| > 0 && a[0] == b[0] && b[0] == c[0] {
      LexLessTransitive(a[1..], b[1..], c[1..]);
    }
  }

  /** Any two different ranges are ordered one way or the other. */
  lemma {:induction false} LexLessTotal(a: seq<int>, b: seq<int>)
    requires a != b
    ensures LexLess(a, b) || LexLess(b, a)
  {
    if |a| > 0 && |b| > 0 && a[0] == b[0] {
      assert a == [a[0]] + a[1..] && b == [b[0]] + b[1..];
      LexLessTotal(a[1..], b[1..]);
    }
  }

  /** A proper prefix is smaller than the range it starts. */
  lemma {:induction false} PrefixIsLess(a: seq<int>, b: seq<int>)
    requires |a| < |b| && a == b[..|a|]
    ensures LexLess(a, b)
  {
    if |a| > 0 {
      assert a[1..] == b[1..][..|a| - 1];
      PrefixIsLess(a[1..], b[1..]);
    }
  }

  // ---------------------------------------------------------------------
  // stack_buffer<int, N>
  // ---------------------------------------------------------------------

  class StackBuffer {
    /** The compile-time capacity N. */
    const N: nat
    /** The N inline slots of `union storage`. */
    var data: array<int>
    /** `end_`, as the index of the first slot past the last live element. */
    var cursor: nat
    /** Which slots currently hold a constructed value. */
    ghost var live: seq<bool>
    ghost var constructions: nat
    ghost var destructions: nat
    ghost var assignments: nat

    /** 0 <= size <= capacity; exactly the slots below `end_` are constructed. */
    ghost predicate Valid()
      reads this
    {
      && data.Length == N
      && cursor <= N
      && |live| == N
      && forall i :: 0 <= i < N ==> (live[i] <==> i < cursor)
    }

    /** The live elements, in order. */
    function Contents(): seq<int>
      reads this, data
      requires Valid()
    {
      data[..cursor]
    }

    /** `stack_buffer() = default`: the `base_buffer` constructor sets `end_`
        to `begin()`. */
    constructor (n: nat)
      ensures Valid() && N == n && fresh(data)
      ensures Contents() == []
      ensures constructions == 0 && destructions == 0 && assignments == 0
    {
      N := n;
      data := new int[n];
      cursor := 0;
      live := seq(n, _ => false);
      constructions, destructions, assignments := 0, 0, 0;
    }

    /** The initializer-list constructor: one `emplace_back` per element.
        More elements than N is undefined behaviour in the source. */
    constructor FromList(n: nat, init: seq<int>)
      requires |init| <= n
      ensures Valid() && N == n && fresh(data)
      ensures Contents() == init
      ensures constructions == |init| && destructions == 0 && assignments == 0
    {
      N := n;
      data := new int[n];
      cursor := 0;
      live := seq(n, _ => false);
      constructions, destructions, assignments := 0, 0, 0;
      new;
      var k := 0;
      while k < |init|
        invariant k <= |init|
        invariant Valid() && N == n && fresh(data)
        invariant Contents() == init[..k]
        invariant constructions == k && destructions == 0 && assignments == 0
      {
        EmplaceBack(init[k]);
        k := k + 1;
      }
    }

    /** The copy constructor and the move constructor: both `emplace_back`
        every element of `other` in order (for integers a move is a copy), and
        neither changes the length of `other`. */
    constructor FromBuffer(other: StackBuffer)
      requires other.Valid()
      ensures Valid() && N == other.N && fresh(data)
      ensures Contents() == other.Contents()
      ensures constructions == |other.Contents()| && destructions == 0 && assignments == 0
    {
      N := other.N;
      data := new int[other.N];
      cursor := 0;
      live := seq(other.N, _ => false);
      constructions, destructions, assignments := 0, 0, 0;
      new;
      var k := 0;
      while k < other.cursor
        invariant k <= other.cursor
        invariant Valid() && N == other.N && fresh(data)
        invariant Contents() == other.data[..k]
        invariant constructions == k && destructions == 0 && assignments == 0
      {
        EmplaceBack(other.data[k]);
        k := k + 1;
      }
    }

    function Capacity(): (n: nat)
      reads this
      requires Valid()
      ensures n == data.Length
    {
      N
    }

    /** `max_size()` is `capacity()`. */
    function MaxSize(): (n: nat)
      reads this
      requires Valid()
      ensures n == Capacity()
    {
      Capacity()
    }

    /** `std::distance(begin, end)`. */
    function Size(): (n: nat)
      reads this, data
      requires Valid()
      ensures n == |Contents()| && n <= MaxSize()
    {
      cursor - 0
    }

    function Empty(): (b: bool)
      reads this, data
      requires Valid()
      ensures b <==> Contents() == []
    {
      Size() == 0
    }

    /** `operator[]`: unchecked in the source; out of range is undefined. */
    function At(pos: nat): (x: int)
      reads this, data
      requires Valid() && pos < Size()
      ensures x == Contents()[pos]
    {
      data[pos]
    }

    /** `array_traits::construct`: placement new into a slot holding no value. */
    method Construct(slot: nat, x: int)
      requires data.Length == N && |live| == N
      requires slot < N && !live[slot]
      modifies this`live, this`constructions, data
      ensures data[..] == old(data[..])[slot := x]
      ensures live == old(live)[slot := true]
      ensures constructions == old(constructions) + 1
    {
      data[slot] := x;
      live := live[slot := true];
      constructions := constructions + 1;
    }

    /** `array_traits::destroy`: explicit destructor call on a live slot. */
    method Destroy(slot: nat)
      requires |live| == N && slot < N && live[slot]
      modifies this`live, this`destructions
      ensures live == old(live)[slot := false]
      ensures destructions == old(destructions) + 1
    {
      live := live[slot := false];
      destructions := destructions + 1;
    }

    /** Constructs at `end_` and advances it; no capacity check in the source. */
    method EmplaceBack(x: int)
      requires Valid() && Size() < Capacity()
      modifies this, data
      ensures Valid() && data == old(data)
      ensures Contents() == old(Contents()) + [x]
      ensures constructions == old(constructions) + 1
      ensures destructions == old(destructions) && assignments == old(assignments)
    {
      Construct(cursor, x);
      cursor := cursor + 1;
    }

    /** Retreats `end_` and destroys the slot it now points at. */
    method PopBack()
      requires Valid() && Size() > 0
      modifies this
      ensures Valid() && data == old(data)
      ensures Contents() == old(Contents())[..|old(Contents())| - 1]
      ensures destructions == old(destructions) + 1
      ensures constructions == old(constructions) && assignments == old(assignments)
    {
      cursor := cursor - 1;
      Destroy(cursor);
    }

    /** `while (!empty()) pop_back();` -- also the destructor's body. */
    method Clear()
      requires Valid()
      modifies this
      ensures Valid() && data == old(data)
      ensures Contents() == []
      ensures destructions == old(destructions) + old(Size())
      ensures constructions == old(constructions) && assignments == old(assignments)
    {
      while !Empty()
        decreases cursor
        invariant Valid() && data == old(data)
        invariant destructions + cursor == old(destructions) + old(cursor)
        invariant constructions == old(constructions) && assignments == old(assignments)
      {
        PopBack();
      }
    }

    /** The rebalancing `assign(f, begin(), other.begin(), other.end())`:
        nothing happens when both ranges start at the same slot; otherwise
        the common prefix is overwritten, the surplus source elements are
        appended and the surplus target elements are popped. */
    method Assign(f: int -> int, other: StackBuffer)
      requires Valid() && other.Valid() && other.N == N
      requires other != this ==> other.data != data
      modifies this, data
      ensures Valid() && data == old(data)
      ensures other.Valid() && other.Contents() == old(other.Contents())
      ensures other == this ==> Contents() == old(Contents())
      ensures other != this ==> Contents() == Map(f, old(other.Contents()))
      ensures other == this ==>
        && assignments == old(assignments)
        && constructions == old(constructions)
        && destructions == old(destructions)
      ensures other != this ==>
        && assignments == old(assignments) + Min(old(Size()), |old(other.Contents())|)
        && constructions == old(constructions) + Surplus(|old(other.Contents())|, old(Size()))
        && destructions == old(destructions) + Surplus(old(Size()), |old(other.Contents())|)
    {
      if data != other.data {
        ghost var src := other.Contents();
        ghost var size0 := cursor;
        ghost var m := Min(size0, |src|);
        var d, i := 0, 0;
        // (a) overwrite the slots both ranges have
        while d != cursor && i != other.cursor
          invariant Valid() && data == old(data) && cursor == size0
          invariant d == i <= m
          invariant data[..d] == Map(f, src[..i])
          invariant assignments == old(assignments) + i
          invariant constructions == old(constructions) && destructions == old(destructions)
        {
          data[d] := f(other.data[i]);
          assignments := assignments + 1;
          d, i := d + 1, i + 1;
        }
        // (b) construct the source's surplus at the end
        while i != other.cursor
          invariant Valid() && data == old(data)
          invariant m <= d == i <= |src|
          invariant m < |src| ==> cursor == d
          invariant m == |src| ==> i == |src| && cursor == size0
          invariant data[..d] == Map(f, src[..i])
          invariant assignments == old(assignments) + m
          invariant constructions == old(constructions) + (i - m)
          invariant destructions == old(destructions)
        {
          EmplaceBack(f(other.data[i]));
          i := i + 1;
          d := d + 1;
        }
        // (c) destroy the target's surplus
        ghost var size1 := cursor;
        while d != cursor
          invariant Valid() && data == old(data)
          invariant d == |src| <= cursor <= size1
          invariant size1 == if size0 > |src| then size0 else |src|
          invariant data[..d] == Map(f, src)
          invariant assignments == old(assignments) + m
          invariant constructions == old(constructions) + Surplus(|src|, size0)
          invariant destructions == old(destructions) + (size1 - cursor)
        {
          PopBack();
        }
      }
    }

    /** Copy assignment and move assignment: `assign` with the identity
        (for integers, moving an element copies it). */
    method AssignFrom(other: StackBuffer)
      requires Valid() && other.Valid() && other.N == N
      requires other != this ==> other.data != data
      modifies this, data
      ensures Valid() && data == old(data)
      ensures Contents() == old(other.Contents())
      ensures other.Valid() && other.Contents() == old(other.Contents())
      ensures other == this ==>
        && assignments == old(assignments)
        && constructions == old(constructions)
        && destructions == old(destructions)
      ensures other != this ==>
        && assignments == old(assignments) + Min(old(Size()), |old(other.Contents())|)
        && constructions == old(constructions) + Surplus(|old(other.Contents())|, old(Size()))
        && destructions == old(destructions) + Surplus(old(Size()), |old(other.Contents())|)
    {
      Assign(x => x, other);
      assert other != this ==> Map(x => x, old(other.Contents())) == old(other.Contents());
    }
  }

  /** `operator==`: the two element ranges are equal. */
  function Eq(lhs: StackBuffer, rhs: StackBuffer): (r: bool)
    reads lhs, lhs.data, rhs, rhs.data
    requires lhs.Valid() && rhs.Valid()
    ensures r <==> lhs.Contents() == rhs.Contents()
  {
    Equal(lhs.Contents(), rhs.Contents())
  }

  /** `operator!=`: `!(lhs == rhs)`. */
  function Ne(lhs: StackBuffer, rhs: StackBuffer): (r: bool)
    reads lhs, lhs.data, rhs, rhs.data
    requires lhs.Valid() && rhs.Valid()
    ensures r <==> lhs.Contents() != rhs.Contents()
  {
    !Eq(lhs, rhs)
  }

  /** `operator<`: lexicographic comparison of the element ranges. */
  function Lt(lhs: StackBuffer, rhs: StackBuffer): (r: bool)
    reads lhs, lhs.data, rhs, rhs.data
    requires lhs.Valid() && rhs.Valid()
    ensures r <==> exists k: nat :: SmallerAt(lhs.Contents(), rhs.Contents(), k)
  {
    LexLessIff(lhs.Contents(), rhs.Contents());
    LexLess(lhs.Contents(), rhs.Contents())
  }

  /** The "copy assignment" section of the test: a four-element buffer
      assigned a three-element one becomes equal to it with three element
      assignments, no construction and one destruction; assigning a buffer
      to itself afterwards changes nothing. */
  method CopyAssignScenario() returns (equal: bool, size: nat)
    ensures equal && size == 3
  {
    var orig := new StackBuffer.FromList(7, [1, 2, 3]);
    var cpy0 := new StackBuffer(7);
    var cpy3 := new StackBuffer.FromList(7, [8, 9, 10, 11]);
    cpy0.AssignFrom(orig);
    assert Eq(cpy0, orig);
    cpy3.AssignFrom(orig);
    assert cpy3.assignments == 3 && cpy3.constructions == 4 && cpy3.destructions == 1;
    cpy3.AssignFrom(cpy3);
    equal := Eq(cpy3, orig);
    size := cpy3.Size();
  }

  /** The "eq cmp" section of the test. */
  method EqualityScenario() returns (eq: bool, ne: bool)
    ensures eq && ne
  {
    var lhs := new StackBuffer.FromList(7, [1, 2, 3]);
    var rhs := new StackBuffer(7);
    rhs.EmplaceBack(1);
    rhs.EmplaceBack(2);
    rhs.EmplaceBack(3);
    eq := Eq(lhs, rhs);
    rhs.EmplaceBack(4);
    ne := Ne(lhs, rhs);
  }

  /** [1,2,3] < [1,2,4] and [1,2] < [1,2,3], while [1,2,3] is not less
      than itself. */
  method OrderScenario() returns (lt1: bool, lt2: bool, lt3: bool)
    ensures lt1 && lt2 && !lt3
  {
    var a := new StackBuffer.FromList(7, [1, 2, 3]);
    var b := new StackBuffer.FromList(7, [1, 2, 4]);
    var c := new StackBuffer.FromList(7, [1, 2]);
    lt1 := Lt(a, b);
    lt2 := Lt(c, a);
    lt3 := Lt(a, a);
  }
}
