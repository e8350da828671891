/**
 * `ring_iterator` of inc/archie/container/ring_iterator.hpp: an iterator
 * that walks a range of `to_last_` elements starting at `front_` over and
 * over. It is a value of three numbers; positions of the underlying
 * iterator are modelled as integers (`front` is the position of the range's
 * first element).
 *
 * The source computes `offset_ % to_last_` with C++ `%`, which truncates
 * toward zero, so a negative offset gives a negative remainder. `CRem`
 * models that operator; Dafny's own `%` is Euclidean.
 */
module RingIterator {

  /** `to_last_` is never zero. */
  type Period = p: int | p != 0 witness 1

  function Abs(x: int): nat { if x < 0 then -x else x }

  // ---------------------------------------------------------------------
  // C++ integer division and remainder
  // ---------------------------------------------------------------------

  /** C++ `a % b`: the remainder of division truncated toward zero; it has
      the sign of `a` and is smaller than `b` in magnitude. */
  function CRem(a: int, b: Period): (r: int)
    ensures Abs(r) < Abs(b)
    ensures a >= 0 ==> r >= 0
    ensures a <= 0 ==> r <= 0
  {
    if a >= 0 then a % Abs(b) else -((-a) % Abs(b))
  }

  /** C++ `a / b`: the quotient truncated toward zero. */
  function CQuot(a: int, b: Period): int
  {
    var q := Abs(a) / Abs(b);
    if (a >= 0) == (b > 0) then q else -q
  }

  /** The identity C++ guarantees: `(a / b) * b + a % b == a`. */
  lemma CDivision(a: int, b: Period)
    ensures CQuot(a, b) * b + CRem(a, b) == a
  {
    var q, r := Abs(a) / Abs(b), Abs(a) % Abs(b);
    assert Abs(a) == q * Abs(b) + r;
    var m: int := b;
    if m > 0 {
      assert Abs(b) == m;
    } else {
      assert Abs(b) == -m;
      assert q * Abs(b) == -(q * m);
    }
  }

  /** On non-negative operands C++ and Dafny agree. */
  lemma CRemNonNegative(a: int, b: Period)
    requires a >= 0 && b > 0
    ensures CRem(a, b) == a % b
  {
  }

  /** A remainder is its own remainder. */
  lemma CRemIdempotent(a: int, b: Period)
    ensures CRem(CRem(a, b), b) == CRem(a, b)
  {
    var r := CRem(a, b);
    if r >= 0 {
      ModSmall(r, Abs(b));
    } else {
      ModSmall(-r, Abs(b));
    }
  }

  lemma ModSmall(x: int, n: int)
    requires 0 <= x < n
    ensures x % n == x
  {
  }

  /** Adding one full period does not change a Euclidean remainder. */
  lemma ModAddPeriod(a: int, n: int)
    requires n > 0
    ensures (a + n) % n == a % n
  {
    var q, r := a / n, a % n;
    assert a == q * n + r;
    assert a + n == (q + 1) * n + r;
    ModUnique(a + n, n, q + 1, r);
  }

  /** Quotient and remainder are the only ones with `0 <= r < n`. */
  lemma ModUnique(x: int, n: int, q: int, r: int)
    requires n > 0 && 0 <= r < n && x == q * n + r
    ensures x % n == r && x / n == q
  {
    var q', r' := x / n, x % n;
    assert x == q' * n + r';
    MulSub(q, q', n);
    assert (q - q') * n == r' - r;
    if q > q' {
      MulAtLeast(q - q', n);
    } else if q < q' {
      MulSub(q', q, n);
      MulAtLeast(q' - q, n);
    }
  }

  lemma MulSub(a: int, b: int, n: int)
    ensures (a - b) * n == a * n - b * n
  {
  }

  lemma MulAtLeast(k: int, n: int)
    requires k >= 1 && n > 0
    ensures k * n >= n
  {
    assert k * n == (k - 1) * n + n;
    MulNonNegative(k - 1, n);
  }

  lemma MulNonNegative(a: int, b: int)
    requires a >= 0 && b >= 0
    ensures a * b >= 0
  {
  }

  /** Stepping less than a full period from `a` lands on another residue. */
  lemma ModShiftDistinct(a: int, j: int, n: int)
    requires n > 0 && 0 < j < n
    ensures (a + j) % n != a % n
  {
    var q, r := a / n, a % n;
    assert a + j == q * n + (r + j);
    if r + j < n {
      ModUnique(a + j, n, q, r + j);
    } else {
      assert a + j == (q + 1) * n + (r + j - n);
      ModUnique(a + j, n, q + 1, r + j - n);
    }
  }

  // ---------------------------------------------------------------------
  // The iterator
  // ---------------------------------------------------------------------

  datatype Iter = Iter(front: int, toLast: Period, offset: int)

  /** The primary constructor: the period is the range length, or 1 for an
      empty range. */
  function Make(front: int, last: int, offset: int): (it: Iter)
    ensures it.front == front && it.offset == offset
    ensures last != 0 ==> it.toLast == last
    ensures last == 0 ==> it.toLast == 1
  {
    Iter(front, if last != 0 then last else 1, offset)
  }

  /** `ring_iterator(begin, last, offset)` and `ring_iterator(begin, last)`
      (offset 0): the period is `std::distance(begin, last)`. */
  function FromBounds(begin: int, last: int, offset: int): (it: Iter)
    ensures it.front == begin && it.offset == offset
    ensures it.toLast == if last != begin then last - begin else 1
  {
    Make(begin, last - begin, offset)
  }

  /** `ring_iterator(begin, last, first)`: starts at `first`. */
  function FromBoundsAt(begin: int, last: int, first: int): (it: Iter)
    ensures it.offset == first - begin
    ensures begin <= first < last ==> Pos(it) == first
  {
    var it := FromBounds(begin, last, first - begin);
    assert begin <= first < last ==> Pos(it) == first by {
      if begin <= first < last {
        ModSmall(first - begin, last - begin);
      }
    }
    it
  }

  /** `ring_iterator(r, n)` and `ring_iterator(r)` (n = 0) over a range whose
      first element is at position 0. */
  function FromRange(size: nat, n: int): (it: Iter)
    ensures it.front == 0 && it.offset == n
    ensures it.toLast == if size == 0 then 1 else size
  {
    Make(0, size, n)
  }

  /** The default constructor: an empty range, so period 1. */
  function Default(): (it: Iter)
    ensures it.toLast == 1 && it.offset == 0
  {
    Make(0, 0, 0)
  }

  /** The private `normalize() const`, target of `operator*` and
      `operator->`: `std::next(front_, offset_ % to_last_)`. */
  function Pos(it: Iter): int
  {
    it.front + CRem(it.offset, it.toLast)
  }

  /** The dereferenced position lies less than one period from `front`: at
      or after it for a non-negative offset, at or before it for a
      non-positive one. */
  lemma PosBounds(it: Iter)
    ensures Abs(Pos(it) - it.front) < Abs(it.toLast)
    ensures it.offset >= 0 ==> it.front <= Pos(it)
    ensures it.offset <= 0 ==> Pos(it) <= it.front
  {
  }

  /** `it += n`, `it + n`, `n + it`, `it -= m` and `it - m` (with n = -m),
      `++it` and `--it` (n = 1, -1): only the offset moves. */
  function Advance(it: Iter, n: int): (r: Iter)
    ensures r.front == it.front && r.toLast == it.toLast
    ensures Diff(r, it) == n
  {
    it.(offset := it.offset + n)
  }

  /** `it++`: the value before the step and the stepped iterator. */
  function PostIncrement(it: Iter): (r: (Iter, Iter))
    ensures r.0 == it && Diff(r.1, it) == 1
    ensures r.1.front == it.front && r.1.toLast == it.toLast
  {
    (it, Advance(it, 1))
  }

  /** `it--`: the value before the step and the stepped-back iterator. */
  function PostDecrement(it: Iter): (r: (Iter, Iter))
    ensures r.0 == it && Diff(r.1, it) == -1
    ensures r.1.front == it.front && r.1.toLast == it.toLast
  {
    (it, Advance(it, -1))
  }

  /** `it[n]`: the position of `*(it + n)`. */
  function Subscript(it: Iter, n: int): (p: int)
    ensures Abs(p - it.front) < Abs(it.toLast)
  {
    PosBounds(Advance(it, n));
    Pos(Advance(it, n))
  }

  /** `lhs - rhs`: the difference of the offsets. */
  function Diff(lhs: Iter, rhs: Iter): int
  {
    lhs.offset - rhs.offset
  }

  /** `==`: equal offsets and the same dereferenced position. */
  predicate Eq(lhs: Iter, rhs: Iter)
  {
    lhs.offset == rhs.offset && Pos(lhs) == Pos(rhs)
  }

  predicate Ne(lhs: Iter, rhs: Iter) { !Eq(lhs, rhs) }

  /** `<` compares offsets only. */
  predicate Lt(lhs: Iter, rhs: Iter) { lhs.offset < rhs.offset }

  predicate Gt(lhs: Iter, rhs: Iter) { Lt(rhs, lhs) }

  predicate Ge(lhs: Iter, rhs: Iter) { !Lt(lhs, rhs) }

  predicate Le(lhs: Iter, rhs: Iter) { !Lt(rhs, lhs) }

  /** The friend `normalize(it&)` and `norm(it)`: the offset becomes
      `offset_ % to_last_`. */
  function Norm(it: Iter): (r: Iter)
    ensures r.front == it.front && r.toLast == it.toLast
    ensures Abs(r.offset) < Abs(it.toLast)
  {
    it.(offset := CRem(it.offset, it.toLast))
  }

  datatype Primacy = Primal | Repeated

  function PrimacyOf(it: Iter): Primacy
  {
    if it.offset >= 0 && it.offset < it.toLast then Primal else Repeated
  }

  predicate IsPrimal(it: Iter) { PrimacyOf(it) == Primal }

  predicate IsRepeated(it: Iter) { PrimacyOf(it) == Repeated }

  // ---------------------------------------------------------------------
  // Properties
  // ---------------------------------------------------------------------

  /** Stepping forward and back by the same distance is the identity, and
      `(it + n) - it == n`. */
  lemma AdvanceRoundTrip(it: Iter, n: int)
    ensures Advance(Advance(it, n), -n) == it
    ensures Diff(Advance(it, n), it) == n
    ensures Advance(Advance(it, 1), -1) == it
  {
  }

  /** Two iterators one lap apart reach the same element yet compare
      unequal. */
  lemma OneLapApart(it: Iter)
    requires it.toLast > 0 && it.offset >= 0
    ensures Pos(Advance(it, it.toLast)) == Pos(it)
    ensures !Eq(Advance(it, it.toLast), it)
  {
    ModAddPeriod(it.offset, it.toLast);
  }

  /** On iterators over the same range, `==` is equality of offsets. */
  lemma EqSameRange(lhs: Iter, rhs: Iter)
    requires lhs.front == rhs.front && lhs.toLast == rhs.toLast
    ensures Eq(lhs, rhs) <==> lhs.offset == rhs.offset
    ensures Ne(lhs, rhs) <==> lhs.offset != rhs.offset
  {
  }

  /** `>`, `<=`, `>=` agree with `<`, and `<` is trichotomous on offsets
      and never holds between `==` iterators. */
  lemma OrderConsistent(lhs: Iter, rhs: Iter)
    ensures Gt(lhs, rhs) <==> rhs.offset < lhs.offset
    ensures Le(lhs, rhs) <==> Lt(lhs, rhs) || lhs.offset == rhs.offset
    ensures Ge(lhs, rhs) <==> Gt(lhs, rhs) || lhs.offset == rhs.offset
    ensures Eq(lhs, rhs) ==> !Lt(lhs, rhs) && !Gt(lhs, rhs)
    ensures Lt(lhs, rhs) || Gt(lhs, rhs) || lhs.offset == rhs.offset
  {
  }

  /** Normalising keeps the dereferenced position, and doing it twice is
      doing it once. */
  lemma NormKeepsPosition(it: Iter)
    ensures Pos(Norm(it)) == Pos(it)
    ensures Norm(Norm(it)) == Norm(it)
  {
    CRemIdempotent(it.offset, it.toLast);
  }

  /** A normalised iterator with a non-negative offset over a forward range
      is primal, and a primal iterator is already normalised. */
  lemma NormIsPrimal(it: Iter)
    requires it.toLast > 0
    ensures it.offset >= 0 ==> IsPrimal(Norm(it))
    ensures IsPrimal(it) ==> Norm(it) == it
  {
    if IsPrimal(it) {
      ModSmall(it.offset, it.toLast);
    }
  }

  /** Primal exactly in the first lap; `is_primal` and `is_repeated` are
      complements. */
  lemma PrimacyExact(it: Iter)
    ensures IsPrimal(it) <==> 0 <= it.offset < it.toLast
    ensures IsRepeated(it) <==> !IsPrimal(it)
  {
  }

  /** With C++ `%` a negative offset does not wrap around: one step back
      from the front of a four-element range addresses the position before
      `front`, outside the range. */
  lemma NegativeOffsetLeavesRange(front: int)
    ensures Pos(Advance(Make(front, 4, 0), -1)) == front - 1
  {
  }

  /** With a negative offset one lap on does not reach the same element:
      offset -1 over four elements addresses `front - 1`, offset 3 addresses
      `front + 3`. */
  lemma NegativeOffsetLapDiffers(front: int)
    ensures Pos(Iter(front, 4, -1)) == front - 1
    ensures Pos(Advance(Iter(front, 4, -1), 4)) == front + 3
  {
  }

  /** `it++` and `it--` undo each other. */
  lemma PostStepsRoundTrip(it: Iter)
    ensures PostDecrement(PostIncrement(it).1).1 == it
    ensures PostIncrement(PostDecrement(it).1).1 == it
  {
  }
}
