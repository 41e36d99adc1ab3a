/** Ascending sort of reals, and the fact that a sorted sequence is determined by its multiset. */
module Sorting {

  ghost predicate Sorted(xs: seq<real>) {
    forall i, j :: 0 <= i < j < |xs| ==> xs[i] <= xs[j]
  }

  function Insert(xs: seq<real>, x: real): seq<real> {
    if |xs| == 0 then [x]
    else if x <= xs[0] then [x] + xs
    else [xs[0]] + Insert(xs[1..], x)
  }

  function Sort(xs: seq<real>): seq<real> {
    if |xs| == 0 then [] else Insert(Sort(xs[..|xs| - 1]), xs[|xs| - 1])
  }

  lemma SortedCons(x: real, xs: seq<real>)
    requires Sorted(xs) && (|xs| > 0 ==> x <= xs[0])
    ensures Sorted([x] + xs)
  {
  }

  lemma {:induction false} InsertSorted(xs: seq<real>, x: real)
    requires Sorted(xs)
    ensures Sorted(Insert(xs, x))
    ensures |Insert(xs, x)| > 0
    ensures Insert(xs, x)[0] == if |xs| == 0 || x <= xs[0] then x else xs[0]
  {
    if |xs| == 0 || x <= xs[0] {
    } else {
      InsertSorted(xs[1..], x);
      SortedCons(xs[0], Insert(xs[1..], x));
    }
  }

  lemma {:induction false} InsertKeeps(xs: seq<real>, x: real)
    ensures multiset(Insert(xs, x)) == multiset(xs) + multiset{x}
  {
    if |xs| == 0 {
    } else {
      assert xs == [xs[0]] + xs[1..];
      InsertKeeps(xs[1..], x);
    }
  }

  /** Sorting gives an ascending permutation. */
  lemma {:induction false} SortMeaning(xs: seq<real>)
    ensures Sorted(Sort(xs)) && multiset(Sort(xs)) == multiset(xs)
  {
    if |xs| == 0 {
    } else {
      var front := xs[..|xs| - 1];
      assert xs == front + [xs[|xs| - 1]];
      SortMeaning(front);
      InsertSorted(Sort(front), xs[|xs| - 1]);
      InsertKeeps(Sort(front), xs[|xs| - 1]);
    }
  }

  lemma FirstIsLeast(xs: seq<real>, x: real)
    requires Sorted(xs) && x in multiset(xs)
    ensures |xs| > 0 && xs[0] <= x
  {
    var i :| 0 <= i < |xs| && xs[i] == x;
  }

  lemma WithoutFirst(xs: seq<real>)
    requires |xs| > 0
    ensures multiset(xs[1..]) == multiset(xs) - multiset{xs[0]}
  {
    assert xs == [xs[0]] + xs[1..];
  }

  lemma {:induction false} SortedUnique(xs: seq<real>, ys: seq<real>)
    requires Sorted(xs) && Sorted(ys) && multiset(xs) == multiset(ys)
    ensures xs == ys
  {
    SameSize(xs, ys);
    if |xs| == 0 {
    } else {
      SameFirst(xs, ys);
      WithoutFirst(xs);
      WithoutFirst(ys);
      SortedUnique(xs[1..], ys[1..]);
      assert xs == [xs[0]] + xs[1..];
      assert ys == [ys[0]] + ys[1..];
    }
  }

  lemma SameSize(xs: seq<real>, ys: seq<real>)
    requires multiset(xs) == multiset(ys)
    ensures |xs| == |ys|
  {
    assert |xs| == |multiset(xs)| == |multiset(ys)| == |ys|;
  }

  lemma SameFirst(xs: seq<real>, ys: seq<real>)
    requires Sorted(xs) && Sorted(ys) && multiset(xs) == multiset(ys) && |xs| > 0 && |ys| > 0
    ensures xs[0] == ys[0]
  {
    assert xs[0] in multiset(xs) && ys[0] in multiset(ys);
    FirstIsLeast(xs, ys[0]);
    FirstIsLeast(ys, xs[0]);
  }
}
