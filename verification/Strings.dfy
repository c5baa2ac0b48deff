/** Strings in byte order, and the keys of a map in that order. */
module Strings {
  import opened Sorting

  predicate LessAt(a: string, b: string, k: nat) {
    k <= |a| && k < |b| && a[..k] == b[..k] && (k == |a| || a[k] < b[k])
  }

  predicate Less(a: string, b: string) {
    exists k: nat :: k <= |a| && LessAt(a, b, k)
  }

  lemma LessTrans(a: string, b: string, c: string)
    requires Less(a, b) && Less(b, c)
    ensures Less(a, c)
  {
    var i: nat :| i <= |a| && LessAt(a, b, i);
    var j: nat :| j <= |b| && LessAt(b, c, j);
    var k := if i < j then i else j;
    assert forall n :: 0 <= n < i ==> a[n] == a[..i][n] == b[..i][n] == b[n];
    assert forall n :: 0 <= n < j ==> b[n] == b[..j][n] == c[..j][n] == c[n];
    assert LessAt(a, c, k);
  }

  lemma LessTotal(a: string, b: string)
    ensures a == b || Less(a, b) || Less(b, a)
  {
    var k: nat := 0;
    while k < |a| && k < |b| && a[k] == b[k]
      invariant k <= |a| && k <= |b| && a[..k] == b[..k]
    {
      k := k + 1;
    }
    assert a == b || LessAt(a, b, k) || LessAt(b, a, k);
  }

  // A text is less than its continuations, and than one with a greater character at the first
  // place where the two differ.
  lemma LessTells(p: string, x: char, y: char, r: string, t: string)
    ensures Less(p, p + [x] + r) && !Less(p + [x] + r, p)
    ensures x < y ==> Less(p + [x] + r, p + [y] + t) && !Less(p + [y] + t, p + [x] + r)
  {
    LessIsTotal();
    assert LessAt(p, p + [x] + r, |p|);
    assert x < y ==> LessAt(p + [x] + r, p + [y] + t, |p|);
  }

  lemma LessIsTotal()
    ensures StrictTotal(Less) && StrictWeak(Less)
  {
    forall a, b, c | Less(a, b) && Less(b, c) ensures Less(a, c) { LessTrans(a, b, c); }
    forall a, b ensures a == b || Less(a, b) || Less(b, a) { LessTotal(a, b); }
  }

  predicate IsLeast(x: string, s: set<string>) {
    x in s && forall y :: y in s ==> y == x || Less(x, y)
  }

  lemma LeastExists(s: set<string>)
    requires s != {}
    ensures exists x :: IsLeast(x, s)
  {
    var x :| x in s;
    if s != {x} {
      assert s - {x} != {};
      LeastExists(s - {x});
      var y :| IsLeast(y, s - {x});
      LessTotal(x, y);
      LessIsTotal();
      assert IsLeast(y, s) || IsLeast(x, s);
    } else {
      assert s == {x};
      assert IsLeast(x, s);
    }
  }

  // The elements of s in increasing order.
  function InOrder(s: set<string>): (r: seq<string>)
    ensures forall x :: x in r <==> x in s
  {
    if s == {} then []
    else
      LeastExists(s);
      LessIsTotal();
      var x :| x in s && IsLeast(x, s);
      [x] + InOrder(s - {x})
  }

  lemma {:induction false} InOrderHead(s: set<string>)
    requires s != {}
    ensures InOrder(s) != []
    ensures IsLeast(InOrder(s)[0], s) && InOrder(s) == [InOrder(s)[0]] + InOrder(s - {InOrder(s)[0]})
  {
    hide IsLeast, Less;
    LeastExists(s);
  }

  lemma NoneBelowLeast(x: string, s: set<string>, y: string)
    requires IsLeast(x, s) && y in s
    ensures !Less(y, x)
  {
    LessIsTotal();
    hide Less;
  }

  lemma {:induction false} InOrderSorts(s: set<string>)
    ensures Sorted(Less, InOrder(s)) && multiset(InOrder(s)) == multiset(s)
  {
    if s == {} {
    } else {
      InOrderHead(s);
      var h := InOrder(s)[0];
      var r := InOrder(s - {h});
      InOrderSorts(s - {h});
      hide InOrder, Less, IsLeast;
      forall y | y in r ensures !Less(y, h) {
        NoneBelowLeast(h, s, y);
      }
      SortedFront(h, r);
      assert multiset(s) == multiset(s - {h}) + multiset{h};
    }
  }

  lemma SortedFront(h: string, r: seq<string>)
    requires Sorted(Less, r) && forall y :: y in r ==> !Less(y, h)
    ensures Sorted(Less, [h] + r)
  {
    hide Less;
  }

  // Sorting any enumeration of a set, in whatever order it was collected, gives InOrder.
  lemma {:induction false} SortingGivesInOrder(collected: seq<string>, s: set<string>)
    requires multiset(collected) == multiset(s)
    ensures StableSort(Less, collected) == InOrder(s)
  {
    LessIsTotal();
    StableSortSorts(Less, collected);
    InOrderSorts(s);
    SortedIsUnique(Less, StableSort(Less, collected), InOrder(s));
  }

  // A name ends at the first character that it cannot contain.
  lemma NameEnds(a: string, b: string, d: char, r: string, t: string)
    requires d !in a && d !in b && a + [d] + r == b + [d] + t
    ensures a == b && r == t
  {
    var whole := a + [d] + r;
    assert whole[|a|] == d && whole[|b|] == d;
    assert forall i :: 0 <= i < |a| ==> whole[i] == a[i];
    assert forall i :: 0 <= i < |b| ==> whole[i] == b[i];
    assert |a| == |b|;
    assert a == whole[..|a|] && b == whole[..|b|];
    assert r == whole[|a| + 1..] && t == whole[|b| + 1..];
  }
}
