/**
 * `alias_t<T>` of inc/archie/alias.hpp: a reference that can be re-seated.
 * It holds a pointer (`rebind_t`) to its referent. Assigning a value writes
 * through the pointer; assigning a `rebind_t` or another alias by move
 * replaces the pointer and writes nothing.
 *
 * Objects live in a `Memory`, a map from abstract addresses to their `int`
 * values. Addresses are integers ordered as integers.
 */
module Alias {

  type Addr = int

  /** The objects an alias may refer to. `writes` counts stores through an
      alias. */
  class Memory {
    var cells: map<Addr, int>
    ghost var writes: nat

    constructor (init: map<Addr, int>)
      ensures cells == init && writes == 0
    {
      cells := init;
      writes := 0;
    }
  }

  /** `rebind_t`: the address of an object, taken by `rebind_t(reference)`. */
  datatype Rebind = Rebind(target: Addr)

  class AliasRef {
    /** `ref_`, the address of the referent. */
    var addr: Addr

    /** `alias(t)` and `explicit alias_t(reference)`. */
    constructor (a: Addr)
      ensures addr == a
    {
      addr := a;
    }

    /** `explicit alias_t(rebind_t)`. */
    constructor FromRebind(r: Rebind)
      ensures addr == r.target
    {
      addr := r.target;
    }

    /** The defaulted copy and move constructors copy the pointer. */
    constructor Copy(other: AliasRef)
      ensures addr == other.addr
    {
      addr := other.addr;
    }

    /** `get()` and `operator->`: the referent's address. */
    function Get(): Addr
      reads this
    {
      addr
    }

    /** `operator*`: the referent's current value. */
    function Deref(mem: Memory): (v: int)
      reads this, mem
      requires addr in mem.cells
      ensures v == mem.cells[Get()]
    {
      mem.cells[addr]
    }

    /** `operator=(rebind_t)`: re-seat, leaving every object as it was. */
    method AssignRebind(r: Rebind)
      modifies this
      ensures addr == r.target
    {
      addr := r.target;
    }

    /** The defaulted move assignment: it moves the pointer, so it re-seats
        this alias onto `other`'s referent rather than writing through. */
    method MoveAssign(other: AliasRef)
      modifies this
      ensures addr == old(other.addr)
    {
      addr := other.addr;
    }

    /** `operator=(const_reference x)` and `operator=(value_type&& x)` for
        an object `x` at address `src`: store `x`'s value into the referent
        unless `x` is the referent itself. */
    method AssignValue(mem: Memory, src: Addr)
      requires addr in mem.cells && src in mem.cells
      modifies mem
      ensures mem.cells == old(mem.cells)[addr := old(mem.cells)[src]]
      ensures mem.writes == old(mem.writes) + (if addr == src then 0 else 1)
    {
      if addr != src {
        mem.cells := mem.cells[addr := mem.cells[src]];
        mem.writes := mem.writes + 1;
      }
    }

    /** `operator=(value_type&& x)` for a temporary: a temporary never shares
        the referent's address, so the store always happens. */
    method AssignTemp(mem: Memory, v: int)
      requires addr in mem.cells
      modifies mem
      ensures mem.cells == old(mem.cells)[addr := v]
      ensures mem.writes == old(mem.writes) + 1
    {
      mem.cells := mem.cells[addr := v];
      mem.writes := mem.writes + 1;
    }
  }

  /** `rebind(t)` for an object at address `a`. */
  function RebindTo(a: Addr): (r: Rebind)
    ensures r.target == a
  {
    Rebind(a)
  }

  /** `rebind(alias)`: the referent of the alias, reached through `*a`. */
  function RebindOf(b: AliasRef): (r: Rebind)
    reads b
    ensures r.target == b.Get()
  {
    Rebind(b.addr)
  }

  /** `unwrap(a)`: the referent's value. */
  function Unwrap(a: AliasRef, mem: Memory): (v: int)
    reads a, mem
    requires a.addr in mem.cells
    ensures v == a.Deref(mem)
  {
    mem.cells[a.addr]
  }

  // ---------------------------------------------------------------------
  // Comparisons: identity and order of the referents' addresses
  // ---------------------------------------------------------------------

  /** `operator==`: the same referent. */
  predicate Eq(l: AliasRef, r: AliasRef)
    reads l, r
  {
    l.Get() == r.Get()
  }

  /** `operator!=`: the negation of `==`. */
  predicate Ne(l: AliasRef, r: AliasRef)
    reads l, r
    ensures Ne(l, r) <==> l.addr != r.addr
  {
    !Eq(l, r)
  }

  /** `operator<`: the referents' addresses in order. */
  predicate Lt(l: AliasRef, r: AliasRef)
    reads l, r
  {
    l.Get() < r.Get()
  }

  /** `operator>`: `rhs < lhs`. */
  predicate Gt(l: AliasRef, r: AliasRef)
    reads l, r
    ensures Gt(l, r) <==> l.addr > r.addr
  {
    Lt(r, l)
  }

  /** `operator<=`: `!(lhs > rhs)`, which is "less or the same referent". */
  predicate Le(l: AliasRef, r: AliasRef)
    reads l, r
    ensures Le(l, r) <==> Lt(l, r) || Eq(l, r)
  {
    !Gt(l, r)
  }

  /** `operator>=`: `!(lhs < rhs)`, which is "greater or the same
      referent". */
  predicate Ge(l: AliasRef, r: AliasRef)
    reads l, r
    ensures Ge(l, r) <==> Gt(l, r) || Eq(l, r)
  {
    !Lt(l, r)
  }

  /** `<` is a strict total order in which incomparable means equal, as
      `std::sort` needs: irreflexive, transitive, and exactly one of `<`,
      `==`, `>` holds. */
  lemma LtStrictTotalOrder(a: AliasRef, b: AliasRef, c: AliasRef)
    ensures !Lt(a, a)
    ensures Lt(a, b) && Lt(b, c) ==> Lt(a, c)
    ensures Lt(a, b) || Eq(a, b) || Gt(a, b)
    ensures !(Lt(a, b) && Eq(a, b)) && !(Lt(a, b) && Gt(a, b)) && !(Eq(a, b) && Gt(a, b))
  {
  }

  /** `std::swap` on two aliases: a move construction and two move
      assignments. Only the pointers move; no object is written. */
  method Swap(a: AliasRef, b: AliasRef)
    modifies a, b
    ensures a.addr == old(b.addr) && b.addr == old(a.addr)
  {
    var tmp := new AliasRef.Copy(a);
    a.MoveAssign(b);
    b.MoveAssign(tmp);
  }

  /** The "ref" test: an alias of `x` reads 0; assigning 2 writes `x`;
      after `= rebind(y)` assigning 3 writes `y` and leaves `x` at 2. */
  method RefScenario() returns (first: int, x: int, y: int)
    ensures first == 0 && x == 2 && y == 3
  {
    var mem := new Memory(map[0 := 0, 1 := 1]);
    var a := new AliasRef(0);
    first := a.Deref(mem);
    a.AssignTemp(mem, 2);
    a.AssignRebind(RebindTo(1));
    a.AssignTemp(mem, 3);
    x, y := mem.cells[0], mem.cells[1];
  }

  /** The "const ref" test: `a` and `b` alias `x`; `a = rebind(y)` reads
      `y`, and `a = rebind(b)` reads `x` again. */
  method ConstRefScenario() returns (first: int, second: int, third: int)
    ensures first == 0 && second == 1 && third == 0
  {
    var mem := new Memory(map[0 := 0, 1 := 1]);
    var a := new AliasRef(0);
    var b := new AliasRef(0);
    first := a.Deref(mem);
    a.AssignRebind(RebindTo(1));
    second := a.Deref(mem);
    a.AssignRebind(RebindOf(b));
    third := a.Deref(mem);
  }

  /** The "sorting" test on the array `{3, 1, 2}` at addresses 0, 1, 2 with
      aliases of elements 1, 2 and 0. Sorting by `<` orders the aliases by
      address and sorting by `*lhs < *rhs` orders them by value; both only
      swap aliases, so the array keeps `{3, 1, 2}` throughout. The swaps
      are the ones each sort needs on three elements. */
  method SortingScenario() returns (byAddress: seq<int>, byValue: seq<int>, stored: seq<int>)
    ensures byAddress == [3, 1, 2] && byValue == [1, 2, 3] && stored == [3, 1, 2]
  {
    var mem := new Memory(map[0 := 3, 1 := 1, 2 := 2]);
    var v0 := new AliasRef(1);
    var v1 := new AliasRef(2);
    var v2 := new AliasRef(0);
    Swap(v0, v2);
    Swap(v1, v2);
    assert Lt(v0, v1) && Lt(v1, v2);
    byAddress := [v0.Deref(mem), v1.Deref(mem), v2.Deref(mem)];
    Swap(v0, v2);
    Swap(v0, v1);
    assert v0.Deref(mem) < v1.Deref(mem) < v2.Deref(mem);
    byValue := [v0.Deref(mem), v1.Deref(mem), v2.Deref(mem)];
    stored := [mem.cells[0], mem.cells[1], mem.cells[2]];
  }
}
