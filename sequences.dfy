/** Boolean-mask selection on a series, shared by every script that filters rows by a condition. */
module Sequences {

  /** The elements that pass the mask, in their original order. */
  function Filter<T(!new)>(xs: seq<T>, keep: T -> bool): (r: seq<T>)
    ensures forall x :: x in r <==> x in xs && keep(x)
    ensures |r| <= |xs|
  {
    if |xs| == 0 then []
    else
      assert forall x :: x in xs <==> x == xs[0] || x in xs[1..] by {
        assert xs == [xs[0]] + xs[1..];
      }
      (if keep(xs[0]) then [xs[0]] else []) + Filter(xs[1..], keep)
  }

  /**
   * Filtering keeps order: filtering a concatenation filters each part, and
   * a single element is kept exactly when it passes.
   */
  lemma {:induction false} FilterAppend<T(!new)>(a: seq<T>, b: seq<T>, keep: T -> bool)
    ensures Filter(a + b, keep) == Filter(a, keep) + Filter(b, keep)
    ensures Filter([], keep) == []
    ensures forall x :: Filter([x], keep) == if keep(x) then [x] else []
  {
    forall x ensures Filter([x], keep) == if keep(x) then [x] else [] {
      assert [x][1..] == [];
    }
    if |a| > 0 {
      assert (a + b)[1..] == a[1..] + b;
      FilterAppend(a[1..], b, keep);
    } else {
      assert a + b == b;
    }
  }
}
