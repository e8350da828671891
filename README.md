# archie containers and wrappers, modelled in Dafny

This project models the core of the `archie` C++ sandbox library:

- **`stack_buffer<T, N>` over `base_buffer`** (`buffer.dfy`, module `Buffer`).
  This is a fixed-capacity buffer whose elements live in N inline slots, with an
  `end_` cursor. It offers `emplace_back`, `pop_back` and `clear`. The
  rebalancing `assign` behind copy and move assignment overwrites the common
  prefix, appends the source's surplus and pops the target's surplus. Its
  comparisons are `std::equal` and `std::lexicographical_compare` over the two
  element ranges. The buffer is a class over an `array<int>`. Ghost slot flags
  track which slots hold a constructed value. Ghost counters count
  constructions, destructions and element assignments, so the churn of
  `assign` can be stated.
- **`ring_iterator`** (`ring_iterator.dfy`, module `RingIterator`).
  This is an iterator that walks a range of `to_last_` elements over and over.
  It is a value made of `front`, a nonzero period and an unbounded offset, and
  it dereferences `front + offset % to_last_`. The `%` is C++'s truncating
  remainder, modelled as `CRem`. As a result, a negative offset addresses a
  position before `front`.
- **`ring_adapter`** (`ring_adapter.dfy`, module `RingAdapter`).
  This is a container of fixed capacity plus a cursor. Below capacity,
  `emplace_back` appends and rebuilds the cursor at the front. At capacity it
  overwrites the oldest element through `*pos_++`. The pure function `Push` is
  the state transition, and the class `Ring` proves its `EmplaceBack` against
  it. Ring order is stated with `Rotated`: reading the container starting at
  the cursor's slot.
- **`inapt` / `reserved_value`** (`inapt.dfy`, module `Inapt`).
  This is a value that counts as null when it holds one of its policy's
  reserved sentinels.
- **`alias_t`** (`alias.dfy`, module `Alias`).
  This is a reference that can be re-seated. It lives over a `Memory` of
  abstract integer addresses. Assigning a value writes through, except when
  the source is the referent itself. Assigning a `rebind_t` or moving in
  another alias re-seats it. Comparisons are by address.
- **The type-list queries** (`meta.dfy`, module `Meta`).
  These are `head`, `tail`, `size` and `last`, plus `comparable` equality,
  over reified types. A type list is a sequence of types. The `==` of
  `comparable<T>` is modelled by the overload that C++ resolution picks.

## Model

| member | source | states |
|---|---|---|
| Buffer.Equal | test/dynamic_array_test.cpp:68-70 | `std::equal` on two ranges holds iff they have the same length and are pairwise equal |
| Buffer.LexLessIff | test/dynamic_array_test.cpp:75-79 | `std::lexicographical_compare` (the recursive `LexLess`) holds iff the ranges agree up to some k where the left range is smaller or has ended while the right one goes on |
| Buffer.LexLessIrreflexive | test/dynamic_array_test.cpp:75-79 | no range is less than itself |
| Buffer.LexLessAsymmetric | test/dynamic_array_test.cpp:75-79 | `a < b` excludes `b < a` |
| Buffer.LexLessTransitive | test/dynamic_array_test.cpp:75-79 | `<` on buffers is transitive |
| Buffer.LexLessTotal | test/dynamic_array_test.cpp:75-79 | two different ranges are ordered one way or the other |
| Buffer.PrefixIsLess | test/dynamic_array_test.cpp:75-79 | a proper prefix is less than the range it starts |
| Buffer.StackBuffer.constructor | test/dynamic_array_test.cpp:17 | a default buffer is empty, with capacity N and no slot constructed |
| Buffer.StackBuffer.FromList | test/dynamic_array_test.cpp:110-112 | the initializer-list constructor holds exactly the listed values in order, after one construction per value |
| Buffer.StackBuffer.FromBuffer | test/dynamic_array_test.cpp:113-118 | copy and move construction give a buffer equal to the source in order, after one construction per element |
| Buffer.StackBuffer.Capacity | test/dynamic_array_test.cpp:137 | the capacity is N, the number of inline slots |
| Buffer.StackBuffer.MaxSize | test/dynamic_array_test.cpp:33 | `max_size()` is `capacity()` |
| Buffer.StackBuffer.Size | test/dynamic_array_test.cpp:34 | the size is the number of live elements and never exceeds `max_size()` |
| Buffer.StackBuffer.Empty | test/dynamic_array_test.cpp:35 | empty iff there are no elements |
| Buffer.StackBuffer.At | test/dynamic_array_test.cpp:37-38 | `operator[]` reads the element at that index (for an index below the size) |
| Buffer.StackBuffer.Construct | test/dynamic_array_test.cpp:151-154 | placement new writes only the target slot and makes it live |
| Buffer.StackBuffer.Destroy | test/dynamic_array_test.cpp:155 | the explicit destructor call ends only that slot's lifetime |
| Buffer.StackBuffer.EmplaceBack | test/dynamic_array_test.cpp:40-43 | needs size < N; adds exactly the new value at index old-size and keeps earlier elements |
| Buffer.StackBuffer.PopBack | test/dynamic_array_test.cpp:45 | needs size > 0; removes only the last element, with one destruction |
| Buffer.StackBuffer.Clear | test/dynamic_array_test.cpp:47-49 | the buffer ends empty, after exactly one destruction per element it held |
| Buffer.StackBuffer.Assign | test/dynamic_array_test.cpp:52-62 | from another buffer the target becomes `f` applied to the source's elements, with min(sizes) assignments, surplus constructions and surplus destructions; from itself nothing happens; the source is unchanged |
| Buffer.StackBuffer.AssignFrom | test/dynamic_array_test.cpp:119-132 | copy and move assignment make the target equal to the source, with the same churn, and leave the source's contents and length as they were |
| Buffer.Eq | test/dynamic_array_test.cpp:67-70 | `==` holds iff the element sequences are equal |
| Buffer.Ne | test/dynamic_array_test.cpp:71-74 | `!=` is the negation of `==` |
| Buffer.Lt | test/dynamic_array_test.cpp:75-79 | `<` is lexicographic order on the element sequences |
| Buffer.CopyAssignScenario | test/dynamic_array_test.cpp:262-279 | assigning a 3-element buffer to an empty one and to a 4-element one makes both equal to it (3 assignments and 1 destruction for the 4-element one); self-assignment changes nothing |
| Buffer.EqualityScenario | test/dynamic_array_test.cpp:280-289 | a list-built buffer equals one built by `emplace_back`, and differs once a fourth element is added |
| Buffer.OrderScenario | test/dynamic_array_test.cpp:75-79 | [1,2,3] < [1,2,4], [1,2] < [1,2,3], and [1,2,3] is not less than itself |
| RingIterator.CRem | inc/archie/container/ring_iterator.hpp:77 | C++ `%` is smaller than the divisor in magnitude and has the dividend's sign |
| RingIterator.CDivision | inc/archie/container/ring_iterator.hpp:77 | `(a / b) * b + a % b == a` with truncating division |
| RingIterator.CRemNonNegative | inc/archie/container/ring_iterator.hpp:77 | on non-negative operands C++ `%` agrees with the mathematical remainder |
| RingIterator.CRemIdempotent | inc/archie/container/ring_iterator.hpp:70 | a remainder taken again is unchanged |
| RingIterator.Make | inc/archie/container/ring_iterator.hpp:25-27 | the period is the range length, or 1 when that length is 0, so it is never zero |
| RingIterator.FromBounds | inc/archie/container/ring_iterator.hpp:28-33 | the period is `std::distance(begin, last)`, with the same zero rule |
| RingIterator.FromBoundsAt | inc/archie/container/ring_iterator.hpp:34-36 | the offset is `distance(begin, first)`, so an iterator built at `first` inside the range dereferences `first` |
| RingIterator.FromRange | inc/archie/container/ring_iterator.hpp:37-42 | built from a range of size n: front at its start, period n (1 if empty), offset as given |
| RingIterator.Default | inc/archie/container/ring_iterator.hpp:44 | the default iterator has period 1 and offset 0 |
| RingIterator.PosBounds | inc/archie/container/ring_iterator.hpp:77 | `*it` (the function `Pos`) addresses less than one period from `front`: at or after it for a non-negative offset, at or before it for a non-positive one |
| RingIterator.Advance | inc/archie/container/ring_iterator.hpp:101-140 | `+=`, `+`, `-=`, `-`, `++` and `--` change only the offset, by exactly n |
| RingIterator.PostIncrement | inc/archie/container/ring_iterator.hpp:116-121 | `it++` yields the old iterator and steps the offset by one |
| RingIterator.Subscript | inc/archie/container/ring_iterator.hpp:53 | `it[n]` addresses within one period of `front` |
| RingIterator.Norm | inc/archie/container/ring_iterator.hpp:142-147 | `normalize`/`norm` keep front and period and bring the offset below one period in magnitude |
| RingIterator.AdvanceRoundTrip | inc/archie/container/ring_iterator.hpp:101-140 | `(it + n) - n == it`, `--(++it) == it`, and `(it + n) - it == n` |
| RingIterator.OneLapApart | inc/archie/container/ring_iterator.hpp:63-65 | for a positive period and a non-negative offset, iterators one lap apart reach the same element yet compare unequal |
| RingIterator.EqSameRange | inc/archie/container/ring_iterator.hpp:63-87 | over one range, `==` (`Eq`) is equality of offsets and `!=` (`Ne`) is its negation; `Diff` is the offset difference |
| RingIterator.OrderConsistent | inc/archie/container/ring_iterator.hpp:66-99 | `>`, `<=`, `>=` (`Gt`, `Le`, `Ge`) are derived from `<` (`Lt`) on offsets; `<` is trichotomous and never holds between `==` iterators |
| RingIterator.NormKeepsPosition | inc/archie/container/ring_iterator.hpp:142-147 | normalising keeps the dereferenced position, and `norm(norm(it)) == norm(it)` |
| RingIterator.NormIsPrimal | inc/archie/container/ring_iterator.hpp:142-159 | a normalised non-negative iterator is primal, and a primal one is already normalised |
| RingIterator.PrimacyExact | inc/archie/container/ring_iterator.hpp:148-159 | `primacy()` (`PrimacyOf`) is primal iff `0 <= offset < to_last`; `is_repeated` (`IsRepeated`) is exactly `!is_primal` (`IsPrimal`) |
| RingIterator.NegativeOffsetLeavesRange | inc/archie/container/ring_iterator.hpp:77 | one step back from the front of a range dereferences the position before `front` |
| RingIterator.NegativeOffsetLapDiffers | inc/archie/container/ring_iterator.hpp:77 | with a negative offset one lap on reads a different slot: offset -1 over four elements addresses `front - 1`, offset 3 addresses `front + 3` |
| RingIterator.PostDecrement | inc/archie/container/ring_iterator.hpp:131-136 | `it--` yields the old iterator and steps the offset back by one |
| RingIterator.PostStepsRoundTrip | inc/archie/container/ring_iterator.hpp:116-136 | `it++` followed by `it--`, or the reverse, gives the iterator back |
| RingAdapter.RotatedFromZero | inc/archie/container/ring_adapter.hpp:35 | read from the front, the container is itself |
| RingAdapter.RotatedOverwrite | inc/archie/container/ring_adapter.hpp:36 | overwriting the slot under the cursor and stepping it drops the oldest element and puts the new one last in ring order |
| RingAdapter.Walk | inc/archie/container/ring_iterator.hpp:50-53 | reading `*(it + k)` for k < size is the container rotated to the cursor's offset |
| RingAdapter.ElementsOf | inc/archie/container/ring_adapter.hpp:22-24 | iterating from `begin()` to `end()` reads `size()` elements in ring order starting at the cursor |
| RingAdapter.Push | inc/archie/container/ring_adapter.hpp:31-37 | `emplace_back` keeps the adapter invariant; the size grows by one below capacity and stays at capacity after |
| RingAdapter.EmplaceBackInRingOrder | inc/archie/container/ring_adapter.hpp:31-37 | below capacity the new value is appended in ring order; at capacity the oldest value is dropped and the new one comes last |
| RingAdapter.Keep | inc/archie/container/ring_adapter.hpp:31-37 | the last `cap` values of a history (all of it when shorter), oldest first |
| RingAdapter.PushKeepsNewest | inc/archie/container/ring_adapter.hpp:31-37 | a ring that reads the last `cap` values of a history reads, after `emplace_back(x)`, the last `cap` values of the history extended by x |
| RingAdapter.PushAllKeepsNewest | inc/archie/container/ring_adapter.hpp:31-37 | the same holds for any sequence of pushes |
| RingAdapter.KeepsNewestFromEmpty | inc/archie/container/ring_adapter.hpp:31-37 | from an empty adapter, iteration always reads the last `cap` values pushed, oldest first |
| RingAdapter.BeginIsOldest | inc/archie/container/ring_adapter.hpp:22 | `*begin()` is within the container and is the first element iteration reads |
| RingAdapter.PushBelowCapacity | inc/archie/container/ring_adapter.hpp:33-35 | below capacity `emplace_back` appends and rebuilds the cursor at the front |
| RingAdapter.FillInOrder | inc/archie/container/ring_adapter.hpp:33-35 | filling up to capacity appends every value in order and leaves the cursor at the front |
| RingAdapter.FrontReadsInOrder | inc/archie/container/ring_adapter.hpp:22-35 | with the cursor at the front, iteration reads the values in the order pushed |
| RingAdapter.PushAtCapacity | inc/archie/container/ring_adapter.hpp:36 | at capacity `emplace_back` overwrites slot `offset % capacity` and steps the cursor by one |
| RingAdapter.Ring.constructor | inc/archie/container/ring_adapter.hpp:18-20 | over an empty container, a new adapter is empty, with its cursor built over the container at offset 0 |
| RingAdapter.Ring.FromContainer | inc/archie/container/ring_adapter.hpp:18-20 | over a container built with values (possibly full), the cursor is at offset 0 and iteration reads those values in order |
| RingAdapter.Ring.Capacity | inc/archie/container/ring_adapter.hpp:28 | the size never exceeds the capacity |
| RingAdapter.Ring.Empty | inc/archie/container/ring_adapter.hpp:29 | empty iff the size is 0 |
| RingAdapter.Ring.End | inc/archie/container/ring_adapter.hpp:24 | `distance(begin(), end()) == size()`, where `begin()` (`Begin`) is the cursor and `size()` (`Size`) the container's length |
| RingAdapter.Ring.Front | inc/archie/container/ring_adapter.hpp:22 | `*begin()` is the first element iteration reads, the oldest one |
| RingAdapter.Ring.ConstBegin | inc/archie/container/ring_adapter.hpp:23 | `begin() const` is a fresh iterator at offset 0, not the cursor |
| RingAdapter.Ring.ConstEnd | inc/archie/container/ring_adapter.hpp:25 | `distance(begin() const, end() const) == size()` |
| RingAdapter.Ring.Elements | inc/archie/container/ring_adapter.hpp:22-24 | iteration reads exactly `size()` elements |
| RingAdapter.Ring.EmplaceBack | inc/archie/container/ring_adapter.hpp:31-37 | the new container and cursor are exactly `Push` of the old ones |
| RingAdapter.AdapterTestOverwrite | test/ring_adapter_test.cpp:9-41 | with capacity 4, pushing 0..3 gives [0,1,2,3] with the cursor at the front; pushing 3 again gives [3,1,2,3] with the cursor one step on |
| RingAdapter.AdapterTestReads | test/ring_adapter_test.cpp:38-41 | after the fifth push `*begin()` reads 1 and `begin() const` reads 3 |
| RingAdapter.AdapterTestOrder | test/ring_adapter_test.cpp:33-41 | iteration reads 0,1,2,3 before the fifth push and 1,2,3,3 after it |
| Inapt.Null | inc/archie/inapt.hpp:78-88 | `null()` is one of the reserved values (the first listed) |
| Inapt.IsNullInIff | inc/archie/inapt.hpp:78-88 | the recursive `is_null(x)` (`IsNullIn`) holds iff x equals some listed value |
| Inapt.NullIsNull | inc/archie/inapt.hpp:78-88 | the policy's `null()` is recognised as null |
| Inapt.ReservedDefault | inc/archie/inapt.hpp:93-94 | `reserved_default<int>` reserves exactly `int{}`, that is 0 |
| Inapt.Nullable.Default | inc/archie/inapt.hpp:18-30 | a default `inapt` holds `null()` and `is_null()` is true |
| Inapt.Nullable.Of | inc/archie/inapt.hpp:36-38 | the value constructor stores the given value |
| Inapt.Nullable.Copy | inc/archie/inapt.hpp:31-32 | copies keep policy and value |
| Inapt.Nullable.IsNull | inc/archie/inapt.hpp:54 | `is_null()` holds iff the stored value is reserved |
| Inapt.Nullable.ToBool | inc/archie/inapt.hpp:51 | `operator bool` is the negation of `is_null()` |
| Inapt.Nullable.EqNull | inc/archie/inapt.hpp:58 | `== null_inapt` holds iff the value is null |
| Inapt.Nullable.NeNull | inc/archie/inapt.hpp:59 | `!= null_inapt` is the negation of `== null_inapt` |
| Inapt.Nullable.EqValue | inc/archie/inapt.hpp:60-63 | `== u` compares the stored value with u |
| Inapt.Nullable.NeValue | inc/archie/inapt.hpp:64-67 | `!= u` is the negation of `== u` |
| Inapt.Nullable.Assign | inc/archie/inapt.hpp:40-44 | assigning u stores exactly u; afterwards null iff u is reserved |
| Inapt.Nullable.SetNull | inc/archie/inapt.hpp:46-49 | assigning `null_inapt` stores `null()`, so the value is null again |
| Inapt.Nullable.AssignFrom | inc/archie/inapt.hpp:33-34 | copy and move assignment take the other's value and nullness |
| Inapt.NullableScenario | inc/archie/inapt.hpp:19-67 | a `reserved<int, -1, 0>` is null by default, not null holding 5, null holding 0, and null again after `= null_inapt`; a `reserved_default<int>` starts null at 0 |
| Alias.AliasRef.constructor | inc/archie/alias.hpp:26 | `alias(x)` refers to x's address |
| Alias.AliasRef.FromRebind | inc/archie/alias.hpp:25 | an alias built from `rebind_t` refers to its target |
| Alias.AliasRef.Copy | inc/archie/alias.hpp:29-30 | copy and move construction copy the pointer |
| Alias.AliasRef.Deref | inc/archie/alias.hpp:51-55 | `*a` is the referent's current value, the cell at `get()` (`AliasRef.Get`) |
| Alias.AliasRef.AssignRebind | inc/archie/alias.hpp:38-41 | `= rebind(y)` re-seats onto y and writes no object |
| Alias.AliasRef.MoveAssign | inc/archie/alias.hpp:36 | move assignment re-seats onto the other's referent and writes no object |
| Alias.AliasRef.AssignValue | inc/archie/alias.hpp:42-49 | assigning an object stores its value into the referent and changes no other location; when the object is the referent itself, no write happens |
| Alias.AliasRef.AssignTemp | inc/archie/alias.hpp:46-49 | assigning a temporary stores it into the referent and changes no other location |
| Alias.RebindTo | inc/archie/alias.hpp:102-105 | `rebind(t)` targets t's address |
| Alias.RebindOf | inc/archie/alias.hpp:107-110 | `rebind(b)` for an alias b targets b's referent |
| Alias.Unwrap | inc/archie/alias.hpp:112-115 | `unwrap(a)` is `*a` |
| Alias.Ne | inc/archie/alias.hpp:69-72 | `!=` holds iff the referents' addresses differ |
| Alias.Gt | inc/archie/alias.hpp:79-82 | `>` is `<` with the operands swapped |
| Alias.Le | inc/archie/alias.hpp:84-87 | `!(lhs > rhs)` is "less than, or the same referent" |
| Alias.Ge | inc/archie/alias.hpp:89-92 | `!(lhs < rhs)` is "greater than, or the same referent" |
| Alias.LtStrictTotalOrder | inc/archie/alias.hpp:64-92 | `<` (`Lt`, comparing `get()`) is irreflexive and transitive, and exactly one of `<`, `==` (`Eq`), `>` holds |
| Alias.Swap | inc/archie/alias.hpp:29-36 | swapping two aliases exchanges their referents and writes no object |
| Alias.RefScenario | test/alias_test.cpp:9-20 | an alias of x reads 0; `= 2` sets x to 2; after `= rebind(y)`, `= 3` sets y and leaves x at 2 |
| Alias.ConstRefScenario | test/alias_test.cpp:21-31 | re-seating onto y reads 1; re-seating onto another alias of x reads 0 |
| Alias.SortingScenario | test/alias_test.cpp:32-54 | sorting aliases of {3,1,2} by address reads 3,1,2 and by value reads 1,2,3; the array stays {3,1,2} |
| Meta.Head | inc/archie/meta/head.hpp:12-17 | `head` has at most one type and is a prefix of the list |
| Meta.Tail | inc/archie/meta/tail.hpp:12-17 | `tail` has length `size - 1` (0 for the empty list) and is a suffix of the list |
| Meta.Size | inc/archie/meta/size.hpp:12-14 | `size` is 0 exactly for the empty list |
| Meta.Last | inc/archie/meta/last.hpp:24-30 | as written, `last` has at most one type and is empty for the empty list |
| Meta.LastType | inc/archie/meta/last.hpp:24-30 | the intended `last`: the final type, as a one-element list, or the empty list |
| Meta.HeadFacts | inc/archie/meta/head.hpp:12-17 | `head` of a non-empty list is its first type; `head(head(l)) == head(l)` |
| Meta.HeadTail | inc/archie/meta/head.hpp:12-17 | `head(l)` followed by `tail(l)` is l |
| Meta.SizeFacts | inc/archie/meta/size.hpp:12-14 | prepending a type adds 1 to `size`, and `size(tail(l)) == size(l) - 1` for a non-empty l |
| Meta.TailNDrops | inc/archie/meta/tail.hpp:12-17 | applying `tail` n times drops the first min(n, size) types |
| Meta.TailSizeTimesIsEmpty | inc/archie/meta/tail.hpp:12-17 | applying `tail` `size(l)` times gives the empty list |
| Meta.LastIsHead | inc/archie/meta/last.hpp:24-30 | as written, `last(l) == head(l)` for every l |
| Meta.LastCounterexample | inc/archie/meta/last.hpp:24-27 | `last(type_list<int, char>)` is `type_list<int>`, not the intended `type_list<char>` |
| Meta.LastTypeFacts | inc/archie/meta/last.hpp:24-30 | the intended `last` returns the type appended last, and `l` is its all-but-last part followed by `last(l)` |
| Meta.Resolve | inc/archie/meta/comparable.hpp:7-16 | the exact (non-template) overload is chosen iff the argument type is T |
| Meta.CompEq | inc/archie/meta/comparable.hpp:7-11 | `==` holds iff both objects have the same type |
| Meta.CompNe | inc/archie/meta/comparable.hpp:12-16 | `!=` is the exact negation of `==` |
| Meta.ListEq | inc/archie/meta/type_list.hpp:7 | two type lists are equal iff their type sequences are identical |
| Meta.ListNe | inc/archie/meta/type_list.hpp:7 | `!=` on type lists is the negation of `==` |
| Meta.TypeListExamples | test/type_list_test.cpp:18-44 | the type-list test's comparisons, sizes, heads, tails and `last` of the empty list |

## Left out

- Element type: the buffer, the ring and `inapt` hold `int`. The test's
  `resource` type is not modelled: its ids and heap pointer, the moved-from
  state, and the difference between copying and moving an element.
  Consequently one constructor (`FromBuffer`) covers copy and move
  construction, and one method (`AssignFrom`) covers copy and move assignment.
- The inline `union storage` and placement new are modelled as an `array`
  with ghost lifetime flags. Uninitialised memory and object lifetime are
  not modelled beyond those flags.
- Buffer.StackBuffer.EmplaceBack requires `size < N`. The source does not
  check capacity, and writing past N is undefined behaviour.
- Buffer.StackBuffer.FromList requires at most N values, for the same
  reason.
- Buffer.StackBuffer.Assign requires two distinct buffers not to share
  storage. Only self-assignment is modelled as a shared start slot.
- The logging `array_traits<stack_buffer<resource, N>>` specialisation
  sits inside `#if 0` and is left out.
- `heap_buffer.hpp` is not part of this model.
- Iterator categories and the `std::iterator` base are compile-time
  plumbing, and `operator->` is the same address as `*`.
- RingIterator: the in-place operators (`+=`, `-=`, prefix and postfix
  `++` and `--`, the friend `normalize`) are modelled as functions that
  return the updated iterator value. Iterator positions are integers, not
  pointers.
- RingIterator.Advance: offsets are unbounded integers. `offset_` is a
  signed `difference_type` that `pos_++` in `emplace_back` increases
  without bound and `+=` changes by any amount. Its overflow is undefined
  behaviour and is not modelled. That overflow comes after PTRDIFF_MAX
  overwrites, or from an `it + n` outside the `difference_type` range.
- RingAdapter.Ring.constructor requires a capacity above 0. With capacity 0
  the first `emplace_back` would write through the cursor into an empty
  container.
- RingAdapter: the adapted container is a sequence whose capacity is fixed
  up front. The test's capacity of 4 is read from its `ring->reserve(4)`.
  As written that call uses an `operator->` that `ring_adapter` does not
  declare, so the capacity is the evident intent rather than what the
  test's code does. Vector growth and reallocation are not modelled.
- RingAdapter: `begin() const` is modelled by value. Its conversion from
  the non-const iterator type is not modelled.
- RingAdapter: the test's assertions are stated on the pure state functions
  (`Push`, `PushAll`, `ElementsOf`) rather than by running a `Ring` object
  through the test.
- Alias: addresses are abstract integers. Real pointer ordering between
  unrelated objects is implementation-defined and is not modelled.
- Alias: `std::sort` itself is not modelled. `SortingScenario` performs
  the swaps that each sort needs on three elements.
- Alias: the deleted constructors and the deleted copy assignment are
  compile-time restrictions.
- Alias: the converting constructor from `alias_t<U>` is not modelled,
  since the model has a single value type.
- Meta: `static_constexpr_storage.hpp` (the `instance<>` helper) is not part
  of this model. Type lists are values here.
- Meta: the unused `impl_t` helper inside `last_` is left out.
- Meta: `model_of`, `well_formed`, `requires`, `indexable` and `ignore` are
  SFINAE machinery with no runtime behaviour, and are left out.
- `pure_function.hpp` and `function_chain.hpp` are outside the modelled
  core.

## Findings

| source | as written | input that shows it | evidently intended | confidence | as-written member | corrected member |
|---|---|---|---|---|---|---|
| inc/archie/meta/last.hpp:24-27 | `last` of a non-empty list returns `type_list<T>` for the FIRST type `T`, the same as `head` | `type_list<int, char>` gives `type_list<int>` | the one-element list of the final type (`type_list<char>`), as the commented-out tests in test/type_list_test.cpp:45-47 expect | high (not executed) | Meta.LastCounterexample | Meta.LastTypeFacts |
