/** Sums of a measure over a sequence. */
module Sums {

  function Sum<T>(measure: T -> int, s: seq<T>): int {
    if s == [] then 0 else Sum(measure, s[..|s| - 1]) + measure(s[|s| - 1])
  }

  lemma {:induction false} SumAppend<T>(measure: T -> int, s: seq<T>, x: T)
    ensures Sum(measure, s + [x]) == Sum(measure, s) + measure(x)
  {
    assert (s + [x])[..|s|] == s;
  }

  lemma SumOne<T>(measure: T -> int, x: T)
    ensures Sum(measure, [x]) == measure(x)
  {
    assert [x][..0] == [];
    assert Sum(measure, [x][..0]) == 0;
  }

  function RealSum<T>(measure: T -> real, s: seq<T>): real {
    if s == [] then 0.0 else RealSum(measure, s[..|s| - 1]) + measure(s[|s| - 1])
  }
}
