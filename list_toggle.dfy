/** Toggling a value in a list the way React state updates do it:
    `list.includes(x) ? list.filter(y => y !== x) : [...list, x]`. */
module ListToggle {

  /** `list.filter(y => y !== x)`. */
  function RemoveAll<T(==, !new)>(xs: seq<T>, x: T): (r: seq<T>)
    ensures x !in r
    ensures forall y :: y != x ==> (y in r <==> y in xs)
    ensures |r| <= |xs|
  {
    if xs == [] then []
    else if xs[0] == x then RemoveAll(xs[1..], x)
    else [xs[0]] + RemoveAll(xs[1..], x)
  }

  /** Filtering a concatenation filters each part and keeps their order. */
  lemma {:induction false} RemoveAllAppend<T(!new)>(a: seq<T>, b: seq<T>, x: T)
    ensures RemoveAll(a + b, x) == RemoveAll(a, x) + RemoveAll(b, x)
    decreases |a|
  {
    if a == [] {
      assert a + b == b;
    } else {
      assert (a + b)[1..] == a[1..] + b;
      RemoveAllAppend(a[1..], b, x);
    }
  }

  /** Filtering out a value the list does not hold changes nothing. */
  lemma {:induction false} RemoveAllAbsent<T(!new)>(xs: seq<T>, x: T)
    requires x !in xs
    ensures RemoveAll(xs, x) == xs
    decreases |xs|
  {
    if xs != [] {
      assert xs[0] != x;
      assert x !in xs[1..];
      RemoveAllAbsent(xs[1..], x);
      assert xs == [xs[0]] + xs[1..];
    }
  }

  /** Every other value keeps its number of occurrences. */
  lemma {:induction false} RemoveAllCounts<T(!new)>(xs: seq<T>, x: T, y: T)
    requires y != x
    ensures multiset(RemoveAll(xs, x))[y] == multiset(xs)[y]
    decreases |xs|
  {
    if xs != [] {
      RemoveAllCounts(xs[1..], x, y);
      assert xs == [xs[0]] + xs[1..];
    }
  }

  function Toggle<T(==, !new)>(xs: seq<T>, x: T): (r: seq<T>)
    ensures x in r <==> x !in xs
    ensures forall y :: y != x ==> (y in r <==> y in xs)
    ensures x !in xs ==> r == xs + [x]
  {
    if x in xs then RemoveAll(xs, x) else xs + [x]
  }

  /** Toggling keeps the other values in their relative order: with the
      toggled value filtered out, the list before and after are the same. */
  lemma ToggleKeepsOthersInOrder<T(!new)>(xs: seq<T>, x: T)
    ensures RemoveAll(Toggle(xs, x), x) == RemoveAll(xs, x)
  {
    if x !in xs {
      RemoveAllAppend(xs, [x], x);
      assert RemoveAll([x], x) == [];
    } else {
      RemoveAllAbsent(RemoveAll(xs, x), x);
    }
  }

  /** Toggling the same value twice restores every value's membership, and
      restores the list itself when the value was absent to begin with. */
  lemma ToggleTwice<T(!new)>(xs: seq<T>, x: T)
    ensures forall y :: y in Toggle(Toggle(xs, x), x) <==> y in xs
    ensures x !in xs ==> Toggle(Toggle(xs, x), x) == xs
  {
    if x !in xs {
      RemoveAllAppend(xs, [x], x);
      assert RemoveAll([x], x) == [];
      RemoveAllAbsent(xs, x);
      assert xs + [] == xs;
    }
  }
}
