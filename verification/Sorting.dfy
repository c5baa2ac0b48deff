/** Sorting as the library's sort functions promise it, and when the outcome is unique. */
module Sorting {

  ghost predicate StrictWeak<T(!new)>(less: (T, T) -> bool) {
    && (forall x :: !less(x, x))
    && (forall x, y, z :: less(x, y) && less(y, z) ==> less(x, z))
    && (forall x, y, z :: less(x, z) ==> less(x, y) || less(y, z))
  }

  ghost predicate StrictTotal<T(!new)>(less: (T, T) -> bool) {
    && (forall x :: !less(x, x))
    && (forall x, y, z :: less(x, y) && less(y, z) ==> less(x, z))
    && (forall x, y :: x == y || less(x, y) || less(y, x))
  }

  ghost predicate Sorted<T>(less: (T, T) -> bool, s: seq<T>) {
    forall i, j :: 0 <= i < j < |s| ==> !less(s[j], s[i])
  }

  ghost predicate Distinct<T(!new)>(s: seq<T>) {
    forall i, j :: 0 <= i < j < |s| ==> s[i] != s[j]
  }

  function Insert<T>(less: (T, T) -> bool, s: seq<T>, x: T): seq<T> {
    if s == [] || !less(x, s[|s| - 1]) then s + [x]
    else Insert(less, s[..|s| - 1], x) + [s[|s| - 1]]
  }

  // A stable sort: insertion from the right, never past an element that is not greater.
  function StableSort<T>(less: (T, T) -> bool, s: seq<T>): seq<T> {
    if s == [] then [] else Insert(less, StableSort(less, s[..|s| - 1]), s[|s| - 1])
  }

  lemma {:induction false} InsertSorted<T(!new)>(less: (T, T) -> bool, s: seq<T>, x: T)
    requires StrictWeak(less) && Sorted(less, s)
    ensures multiset(Insert(less, s, x)) == multiset(s) + multiset{x}
    ensures Sorted(less, Insert(less, s, x))
  {
    hide StrictWeak, Sorted;
    if s == [] || !less(x, s[|s| - 1]) {
      NoneBelow(less, s, x);
      SortedEnd(less, s, x);
    } else {
      var init, last := s[..|s| - 1], s[|s| - 1];
      assert s == init + [last];
      SortedInit(less, init, last);
      InsertSorted(less, init, x);
      var r := Insert(less, init, x);
      AllFrom(init, x, r);
      assert !less(last, x) by { Asymmetric(less, x, last); }
      SortedEnd(less, r, last);
    }
  }

  lemma Asymmetric<T(!new)>(less: (T, T) -> bool, x: T, y: T)
    requires StrictWeak(less) && less(x, y)
    ensures !less(y, x)
  {
  }

  lemma SortedInit<T(!new)>(less: (T, T) -> bool, init: seq<T>, last: T)
    requires Sorted(less, init + [last])
    ensures Sorted(less, init) && forall y :: y in init ==> !less(last, y)
  {
    var s := init + [last];
    assert forall i :: 0 <= i < |init| ==> s[i] == init[i];
    assert s[|init|] == last;
  }

  // An element not below the last is below none.
  lemma NoneBelow<T(!new)>(less: (T, T) -> bool, s: seq<T>, x: T)
    requires StrictWeak(less) && Sorted(less, s) && (s == [] || !less(x, s[|s| - 1]))
    ensures forall y :: y in s ==> !less(x, y)
  {
  }

  lemma SortedEnd<T(!new)>(less: (T, T) -> bool, s: seq<T>, x: T)
    requires Sorted(less, s) && forall y :: y in s ==> !less(x, y)
    ensures Sorted(less, s + [x])
  {
  }

  lemma AllFrom<T(!new)>(s: seq<T>, x: T, r: seq<T>)
    requires multiset(r) == multiset(s) + multiset{x}
    ensures forall y :: y in r ==> y in s || y == x
  {
    forall y | y in r ensures y in s || y == x {
      assert y in multiset(r);
    }
  }

  lemma {:induction false} StableSortSorts<T(!new)>(less: (T, T) -> bool, s: seq<T>)
    requires StrictWeak(less)
    ensures Sorted(less, StableSort(less, s)) && multiset(StableSort(less, s)) == multiset(s)
    ensures |StableSort(less, s)| == |s|
  {
    if s == [] {
    } else {
      assert s == s[..|s| - 1] + [s[|s| - 1]];
      StableSortSorts(less, s[..|s| - 1]);
      InsertSorted(less, StableSort(less, s[..|s| - 1]), s[|s| - 1]);
    }
    assert |multiset(s)| == |s|;
    assert |multiset(StableSort(less, s))| == |StableSort(less, s)|;
  }

  // Two arrangements of the same elements that are both sorted by a total order are equal:
  // nothing is left for the library, or for the order of a map iteration, to decide.
  lemma {:induction false} SortedIsUnique<T(!new)>(less: (T, T) -> bool, s: seq<T>, t: seq<T>)
    requires StrictTotal(less) && Sorted(less, s) && Sorted(less, t) && multiset(s) == multiset(t)
    ensures s == t
  {
    hide StrictTotal, Sorted;
    if s == [] {
      assert |multiset(t)| == 0;
    } else {
      assert s[0] in multiset(t) && |t| > 0;
      assert t[0] in multiset(s);
      HeadIsLeast(less, s, t[0]);
      HeadIsLeast(less, t, s[0]);
      assert s[0] == t[0];
      assert s == [s[0]] + s[1..] && t == [s[0]] + t[1..];
      assert multiset(s[1..]) == multiset(s) - multiset{s[0]};
      assert multiset(t[1..]) == multiset(t) - multiset{s[0]};
      TailSorted(less, s);
      TailSorted(less, t);
      SortedIsUnique(less, s[1..], t[1..]);
    }
  }

  lemma TailSorted<T>(less: (T, T) -> bool, s: seq<T>)
    requires s != [] && Sorted(less, s)
    ensures Sorted(less, s[1..])
  {
  }

  lemma HeadIsLeast<T(!new)>(less: (T, T) -> bool, s: seq<T>, x: T)
    requires StrictTotal(less) && Sorted(less, s) && x in s
    ensures x == s[0] || less(s[0], x)
    ensures !less(x, s[0])
  {
    var i :| 0 <= i < |s| && s[i] == x;
  }

  // Rearranging keeps which elements there are and how often.

  lemma SameElements<T>(s: seq<T>, t: seq<T>, x: T)
    requires multiset(s) == multiset(t)
    ensures x in s <==> x in t
  {
    assert x in s <==> x in multiset(s);
    assert x in t <==> x in multiset(t);
  }

  lemma TwoPlaces<T>(s: seq<T>, i: nat, j: nat)
    requires i < j < |s| && s[i] == s[j]
    ensures multiset(s)[s[i]] >= 2
  {
    assert s == s[..j] + [s[j]] + s[j + 1..];
    assert s[..j][i] == s[i];
  }

  lemma OnlyPlace<T>(s: seq<T>, i: nat)
    requires i < |s| && forall k :: 0 <= k < |s| && k != i ==> s[k] != s[i]
    ensures multiset(s)[s[i]] == 1
  {
    assert s == s[..i] + [s[i]] + s[i + 1..];
    assert s[i] !in s[..i] && s[i] !in s[i + 1..];
  }

  function Filter<T>(keep: T -> bool, s: seq<T>): seq<T> {
    if s == [] then []
    else Filter(keep, s[..|s| - 1]) + if keep(s[|s| - 1]) then [s[|s| - 1]] else []
  }

  lemma {:induction false} FilterConcat<T>(keep: T -> bool, s: seq<T>, t: seq<T>)
    ensures Filter(keep, s + t) == Filter(keep, s) + Filter(keep, t)
  {
    if t == [] {
      assert s + t == s;
    } else {
      FilterConcat(keep, s, t[..|t| - 1]);
      assert (s + t)[..|s + t| - 1] == s + t[..|t| - 1];
    }
  }

  lemma {:induction false} FilterHolds<T>(keep: T -> bool, s: seq<T>, x: T)
    ensures x in Filter(keep, s) <==> x in s && keep(x)
  {
    if s == [] {
    } else {
      FilterHolds(keep, s[..|s| - 1], x);
      assert s == s[..|s| - 1] + [s[|s| - 1]];
    }
  }

  lemma {:induction false} FilterLast<T>(keep: T -> bool, s: seq<T>)
    requires s != []
    ensures var n := |s| - 1;
            Filter(keep, s) == if keep(s[n]) then Filter(keep, s[..n]) + [s[n]] else Filter(keep, s[..n])
  {
  }

  lemma FilterOne<T>(keep: T -> bool, x: T)
    ensures Filter(keep, [x]) == if keep(x) then [x] else []
  {
    assert [x][..0] == [];
    assert Filter(keep, [x]) == Filter(keep, [x][..0]) + if keep(x) then [x] else [];
  }

  function Count<T>(keep: T -> bool, s: seq<T>): nat {
    |Filter(keep, s)|
  }

  lemma CountAppend<T>(keep: T -> bool, s: seq<T>, x: T)
    ensures Count(keep, s + [x]) == Count(keep, s) + if keep(x) then 1 else 0
  {
    FilterConcat(keep, s, [x]);
    FilterOne(keep, x);
  }

  lemma {:induction false} CountIsSize<T>(keep: T -> bool, s: seq<T>, kept: set<nat>)
    requires forall i: nat :: i in kept <==> i < |s| && keep(s[i])
    ensures Count(keep, s) == |kept|
  {
    if s == [] {
      assert kept == {};
    } else {
      var n := |s| - 1;
      CountIsSize(keep, s[..n], kept - {n});
      assert keep(s[n]) ==> kept == kept - {n} + {n};
    }
  }

  // Stability: elements that the order does not tell apart keep their relative order.

  ghost predicate Tied<T(!new)>(less: (T, T) -> bool, keep: T -> bool) {
    forall x, y :: keep(x) && keep(y) ==> !less(x, y)
  }

  lemma {:induction false} InsertIsStable<T(!new)>(less: (T, T) -> bool, keep: T -> bool, s: seq<T>, x: T)
    requires Tied(less, keep) && StrictWeak(less) && Sorted(less, s)
    ensures Filter(keep, Insert(less, s, x)) == Filter(keep, s) + if keep(x) then [x] else []
  {
    hide StrictWeak, Sorted, Filter;
    FilterOne(keep, x);
    if s == [] || !less(x, s[|s| - 1]) {
      FilterConcat(keep, s, [x]);
    } else {
      var init, last := s[..|s| - 1], s[|s| - 1];
      assert s == init + [last];
      SortedInit(less, init, last);
      InsertIsStable(less, keep, init, x);
      FilterOne(keep, last);
      FilterConcat(keep, Insert(less, init, x), [last]);
      FilterConcat(keep, init, [last]);
      assert !(keep(x) && keep(last));
    }
  }

  lemma {:induction false} StableSortIsStable<T(!new)>(less: (T, T) -> bool, keep: T -> bool, s: seq<T>)
    requires Tied(less, keep) && StrictWeak(less)
    ensures Filter(keep, StableSort(less, s)) == Filter(keep, s)
  {
    hide StrictWeak, Tied, Sorted;
    if s == [] {
    } else {
      StableSortIsStable(less, keep, s[..|s| - 1]);
      StableSortSorts(less, s[..|s| - 1]);
      InsertIsStable(less, keep, StableSort(less, s[..|s| - 1]), s[|s| - 1]);
    }
  }
}
