/**
 * `inapt<T, P>` of inc/archie/inapt.hpp: a value that is "null" when it holds
 * one of the sentinel values reserved by its policy `P`, instantiated with
 * the policy `reserved_value<T, v0, vs...>` (the `reserved` alias) and its
 * special case `reserved_default<T>`, which reserves `T{}` alone.
 *
 * The value type is `int`; a reserved pack is the non-empty sequence of its
 * sentinels in the order they are listed.
 */
module Inapt {

  /** The non-type template pack `v0, vs...` of `reserved_value`: the
      primary template is only declared, so a policy lists at least one
      value. */
  type Pack = p: seq<int> | |p| > 0 witness [0]

  /** `reserved_value::null()`: the first listed value. */
  function Null(p: Pack): (v: int)
    ensures v in p
  {
    p[0]
  }

  /** `reserved_value::is_null(x)`, following its recursion over the pack:
      the one-value specialisation compares with that value, the general
      one compares with the head and otherwise asks the rest. */
  function IsNullIn(p: Pack, x: int): bool
    decreases |p|
  {
    if |p| == 1 then x == p[0] else x == p[0] || IsNullIn(p[1..], x)
  }

  /** The recursion answers exactly the question "is `x` reserved". */
  lemma {:induction false} IsNullInIff(p: Pack, x: int)
    ensures IsNullIn(p, x) <==> x in p
  {
    if |p| > 1 {
      IsNullInIff(p[1..], x);
      assert p == [p[0]] + p[1..];
    }
  }

  /** The policy's own `null()` is one of its reserved values. */
  lemma NullIsNull(p: Pack)
    ensures IsNullIn(p, Null(p))
  {
  }

  /** `reserved_default<int>` reserves `int{}`, that is 0. */
  function ReservedDefault(): (p: Pack)
    ensures forall x :: IsNullIn(p, x) <==> x == 0
  {
    [0]
  }

  /** An `inapt<int, reserved_value<int, policy...>>`: `impl.value`. */
  class Nullable {
    const policy: Pack
    var value: int

    /** `inapt()`: `impl_()` stores `P::null()`. */
    constructor Default(p: Pack)
      ensures policy == p && value == Null(p)
      ensures IsNull()
    {
      policy := p;
      value := p[0];
      new;
      NullIsNull(p);
    }

    /** `explicit inapt(u)`: the value is constructed from `u` as given,
        reserved or not. */
    constructor Of(p: Pack, u: int)
      ensures policy == p && value == u
    {
      policy := p;
      value := u;
    }

    /** The defaulted copy and move constructors. */
    constructor Copy(other: Nullable)
      ensures policy == other.policy && value == other.value
    {
      policy := other.policy;
      value := other.value;
    }

    /** `is_null()`: the stored value is one of the reserved values. */
    function IsNull(): (b: bool)
      reads this
      ensures b <==> value in policy
    {
      IsNullInIff(policy, value);
      IsNullIn(policy, value)
    }

    /** `explicit operator bool`: set exactly when not null. */
    function ToBool(): (b: bool)
      reads this
      ensures b <==> value !in policy
    {
      !IsNull()
    }

    /** `get()`, `operator*` and the conversion to `const_reference`. */
    function Get(): int
      reads this
    {
      value
    }

    /** `== null_inapt_t`. */
    function EqNull(): (b: bool)
      reads this
      ensures b <==> value in policy
    {
      IsNull()
    }

    /** `!= null_inapt_t`. */
    function NeNull(): (b: bool)
      reads this
      ensures b <==> !EqNull()
    {
      !IsNull()
    }

    /** `== u`: compares the stored value, whether or not it is null. */
    function EqValue(u: int): (b: bool)
      reads this
      ensures b <==> value == u
    {
      Get() == u
    }

    /** `!= u`: the negation of `== u`. */
    function NeValue(u: int): (b: bool)
      reads this
      ensures b <==> !EqValue(u)
    {
      !(Get() == u)
    }

    /** `operator=(U const& u)`: store `u` as given. */
    method Assign(u: int)
      modifies this
      ensures value == u
      ensures IsNull() <==> u in policy
    {
      value := u;
    }

    /** `operator=(null_inapt_t)`, that is `impl.set_null()`. */
    method SetNull()
      modifies this
      ensures value == Null(policy)
      ensures IsNull()
    {
      value := policy[0];
    }

    /** The defaulted copy and move assignments between two `inapt` of the
        same type. */
    method AssignFrom(other: Nullable)
      requires other.policy == policy
      modifies this
      ensures value == old(other.value)
      ensures IsNull() <==> old(other.IsNull())
    {
      value := other.value;
    }
  }

  /** A `reserved<int, -1, 0>` walks through the states of its interface:
      null by default, not null after assigning 5, null after assigning the
      second reserved value, and null again after `= null_inapt`. */
  method NullableScenario() returns (d: bool, five: bool, zero: bool, reset: bool, def: bool)
    ensures d && !five && zero && reset && def
  {
    var n := new Nullable.Default([-1, 0]);
    d := n.EqNull() && n.Get() == -1;
    n.Assign(5);
    five := n.IsNull() || !n.ToBool() || !n.EqValue(5);
    n.Assign(0);
    zero := n.IsNull() && n.NeValue(-1);
    n.SetNull();
    reset := n.IsNull() && n.EqValue(-1);
    var m := new Nullable.Default(ReservedDefault());
    def := m.IsNull() && m.Get() == 0;
  }
}
