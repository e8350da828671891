/**
 * The compile-time type-list queries of inc/archie/meta: `head`, `tail`,
 * `size` and `last` over `type_list<T...>`, and the equality a type list
 * inherits from `comparable<type_list<T...>>`.
 *
 * Types are reified as values: a type is either a named type (`int`,
 * `char`, `void`, ...) or a type list, and a type list is the sequence of
 * its parameters.
 */
module Meta {

  datatype Type = Named(name: string) | ListOf(items: seq<Type>)

  type TypeList = seq<Type>

  function Min(a: int, b: int): int { if a <= b then a else b }

  /** `head(type_list<T, U...>)` is `type_list<T>`; `head(type_list<>)` is
      `type_list<>`. */
  function Head(l: TypeList): (r: TypeList)
    ensures |r| <= 1 && r <= l
  {
    if |l| == 0 then [] else [l[0]]
  }

  /** `tail(type_list<T, U...>)` is `type_list<U...>`; `tail(type_list<>)`
      is `type_list<>`. */
  function Tail(l: TypeList): (r: TypeList)
    ensures |r| == if |l| == 0 then 0 else |l| - 1
    ensures r == l[|l| - |r|..]
  {
    if |l| == 0 then [] else l[1..]
  }

  /** `size(type_list<T...>)` is `sizeof...(T)`. */
  function Size(l: TypeList): (n: nat)
    ensures n == 0 <==> l == []
  {
    |l|
  }

  /** `last` as written: for a non-empty list it returns the one-element
      list of the FIRST type, exactly like `head`. */
  function Last(l: TypeList): (r: TypeList)
    ensures |r| <= 1
    ensures l == [] ==> r == []
  {
    if |l| == 0 then [] else [l[0]]
  }

  /** `last` as its name and the commented-out tests intend: the
      one-element list of the final type, or `type_list<>`. */
  function LastType(l: TypeList): (r: TypeList)
    ensures r == l[|l| - Min(1, |l|)..]
  {
    if |l| == 0 then [] else [l[|l| - 1]]
  }

  // ---------------------------------------------------------------------
  // head, tail and size
  // ---------------------------------------------------------------------

  /** `head` of a non-empty list is its first type, and taking `head`
      again changes nothing. */
  lemma HeadFacts(l: TypeList)
    ensures |l| > 0 ==> Head(l) == [l[0]]
    ensures Head(Head(l)) == Head(l)
    ensures Head(l) == l[..Min(1, |l|)]
  {
  }

  /** `head` followed by `tail` gives the list back. */
  lemma HeadTail(l: TypeList)
    ensures Head(l) + Tail(l) == l
  {
  }

  /** `size` counts: prepending a type adds one, `tail` removes one. */
  lemma SizeFacts(t: Type, l: TypeList)
    ensures Size([t] + l) == Size(l) + 1
    ensures Size(l) > 0 ==> Size(Tail(l)) == Size(l) - 1
  {
  }

  /** `tail` applied `n` times. */
  function TailN(l: TypeList, n: nat): (r: TypeList)
  {
    if n == 0 then l else TailN(Tail(l), n - 1)
  }

  /** Applying `tail` `n` times drops the first `n` types, or all of them
      once `n` reaches the size. */
  lemma {:induction false} TailNDrops(l: TypeList, n: nat)
    ensures TailN(l, n) == l[Min(n, |l|)..]
  {
    if n > 0 {
      TailNDrops(Tail(l), n - 1);
      if |l| > 0 {
        assert Tail(l)[Min(n - 1, |l| - 1)..] == l[Min(n, |l|)..];
      }
    }
  }

  /** Taking `tail` `size(l)` times reaches the empty list, as
      `tail(tail(tail(l3)))` does. */
  lemma TailSizeTimesIsEmpty(l: TypeList)
    ensures TailN(l, Size(l)) == []
  {
    TailNDrops(l, Size(l));
  }

  // ---------------------------------------------------------------------
  // last: as written versus as intended
  // ---------------------------------------------------------------------

  /** As written, `last` coincides with `head` on every list. */
  lemma LastIsHead(l: TypeList)
    ensures Last(l) == Head(l)
  {
  }

  /** `last(type_list<int, char>)` yields `type_list<int>`, whereas the
      final type is `char`. */
  lemma LastCounterexample()
    ensures Last([Named("int"), Named("char")]) == [Named("int")]
    ensures Last([Named("int"), Named("char")]) != LastType([Named("int"), Named("char")])
  {
  }

  /** The intended `last`: appending a type makes it the last one, and a
      list is its all-but-last part followed by `last`. */
  lemma LastTypeFacts(l: TypeList, t: Type)
    ensures LastType(l + [t]) == [t]
    ensures l[..|l| - |LastType(l)|] + LastType(l) == l
    ensures |LastType(l)| == Min(1, |l|)
  {
  }

  // ---------------------------------------------------------------------
  // comparable
  // ---------------------------------------------------------------------

  /** Which `operator==` / `operator!=` of `comparable<T>` overload
      resolution picks for an argument of type `U`: the non-template one
      taking `T const&` when `U` is `T` (a non-template wins a tie with a
      template), the template otherwise (an exact match beats the
      derived-to-base conversion the non-template would need). */
  datatype Overload = Exact | Template

  function Resolve(t: Type, u: Type): (o: Overload)
    ensures o == Exact <==> t == u
  {
    if u == t then Exact else Template
  }

  /** `comparable<T>::operator==(U const&)`: `true` from the exact
      overload, `false` from the template. */
  function CompEq(t: Type, u: Type): (b: bool)
    ensures b <==> t == u
  {
    match Resolve(t, u)
    case Exact => true
    case Template => false
  }

  /** `comparable<T>::operator!=(U const&)`: `false` from the exact
      overload, `true` from the template. */
  function CompNe(t: Type, u: Type): (b: bool)
    ensures b <==> !CompEq(t, u)
  {
    match Resolve(t, u)
    case Exact => false
    case Template => true
  }

  /** `==` between two type lists, through `comparable<type_list<T...>>`:
      equal exactly when the parameter sequences are identical. */
  function ListEq(a: TypeList, b: TypeList): (r: bool)
    ensures r <==> a == b
  {
    CompEq(ListOf(a), ListOf(b))
  }

  /** `!=` between two type lists: the negation of `==`. */
  function ListNe(a: TypeList, b: TypeList): (r: bool)
    ensures r <==> !ListEq(a, b)
  {
    CompNe(ListOf(a), ListOf(b))
  }

  /** The type-list test's assertions. */
  lemma TypeListExamples()
    ensures var l0: TypeList := [];
            var l1 := [Named("char")];
            var l2 := [Named("int"), Named("char")];
            var l3 := [Named("void"), Named("int"), Named("char")];
            && ListEq(l0, l0) && !ListEq(l0, l1) && ListNe(l2, l3) && !ListNe(l2, l2)
            && Size(l0) == 0 && Size(l1) == 1 && Size(l2) == 2 && Size(l3) == 3
            && ListEq(l0, Head(l0)) && ListEq([Named("char")], Head(l1))
            && ListEq([Named("int")], Head(l2)) && ListEq([Named("void")], Head(l3))
            && ListEq(l0, Tail(l0)) && ListEq(l0, Tail(l1)) && ListEq(l1, Tail(l2))
            && ListEq(l2, Tail(l3)) && ListEq(l0, Tail(Tail(Tail(l3))))
            && ListEq(l0, Last(l0))
  {
  }
}
