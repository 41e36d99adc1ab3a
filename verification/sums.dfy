/** Finite sums of reals over sequences, and the one inequality the divergence proofs rest on:
    a pointwise linear lower bound carries over to sums. */
module Sums {

  function Sum(xs: seq<real>): real {
    if |xs| == 0 then 0.0 else Sum(xs[..|xs| - 1]) + xs[|xs| - 1]
  }

  lemma SumLast(xs: seq<real>)
    requires |xs| > 0
    ensures Sum(xs) == Sum(xs[..|xs| - 1]) + xs[|xs| - 1]
  {
  }

  ghost predicate Distinct<T>(xs: seq<T>) {
    forall i, j :: 0 <= i < j < |xs| ==> xs[i] != xs[j]
  }

  lemma SumSnoc(xs: seq<real>, x: real)
    ensures Sum(xs + [x]) == Sum(xs) + x
  {
    assert (xs + [x])[..|xs|] == xs;
  }

  lemma {:induction false} SumConcat(xs: seq<real>, ys: seq<real>)
    ensures Sum(xs + ys) == Sum(xs) + Sum(ys)
  {
    if |ys| == 0 {
      assert xs + ys == xs;
    } else {
      var front, last := ys[..|ys| - 1], ys[|ys| - 1];
      SumConcat(xs, front);
      assert xs + ys == (xs + front) + [last];
      SumSnoc(xs + front, last);
    }
  }

  lemma SumCons(x: real, ys: seq<real>)
    ensures Sum([x] + ys) == x + Sum(ys)
  {
    SumConcat([x], ys);
    assert [x][..0] == [];
  }

  lemma {:induction false} SumUpdate(xs: seq<real>, i: nat, x: real)
    requires i < |xs|
    ensures Sum(xs[i := x]) == Sum(xs) - xs[i] + x
  {
    var n := |xs| - 1;
    if i < n {
      SumUpdate(xs[..n], i, x);
      assert xs[i := x][..n] == xs[..n][i := x];
    } else {
      assert xs[i := x][..n] == xs[..n];
    }
  }

  lemma {:induction false} SumZero(xs: seq<real>)
    requires forall i :: 0 <= i < |xs| ==> xs[i] == 0.0
    ensures Sum(xs) == 0.0
  {
    if |xs| == 0 {
    } else {
      SumZero(xs[..|xs| - 1]);
    }
  }

  lemma {:induction false} SumNonNegative(xs: seq<real>)
    requires forall i :: 0 <= i < |xs| ==> xs[i] >= 0.0
    ensures Sum(xs) >= 0.0
    ensures forall i :: 0 <= i < |xs| ==> xs[i] <= Sum(xs)
  {
    if |xs| == 0 {
    } else {
      SumNonNegative(xs[..|xs| - 1]);
      forall i | 0 <= i < |xs| ensures xs[i] <= Sum(xs) {
        if i < |xs| - 1 {
          assert xs[i] == xs[..|xs| - 1][i];
        }
      }
    }
  }

  lemma Distribute(a: real, x: real, y: real)
    ensures a * (x + y) == a * x + a * y
  {
  }

  /** The linear lower bound at one position. */
  ghost predicate AboveLine(t: real, p: real, q: real, a: real, b: real) {
    t >= a * p - b * q
  }

  /** A pointwise linear lower bound gives the same bound between the sums. */
  lemma {:induction false} SumLinear(ts: seq<real>, ps: seq<real>, qs: seq<real>, a: real, b: real)
    requires |ts| == |ps| == |qs|
    requires forall i :: 0 <= i < |ts| ==> AboveLine(ts[i], ps[i], qs[i], a, b)
    ensures AboveLine(Sum(ts), Sum(ps), Sum(qs), a, b)
  {
    if |ts| == 0 {
    } else {
      var n := |ts| - 1;
      SumLinear(ts[..n], ps[..n], qs[..n], a, b);
      assert AboveLine(ts[n], ps[n], qs[n], a, b);
      AddLines(Sum(ts[..n]), Sum(ps[..n]), Sum(qs[..n]), ts[n], ps[n], qs[n], a, b);
    }
  }

  lemma AddLines(t: real, p: real, q: real, t': real, p': real, q': real, a: real, b: real)
    requires AboveLine(t, p, q, a, b) && AboveLine(t', p', q', a, b)
    ensures AboveLine(t + t', p + p', q + q', a, b)
  {
    Distribute(a, p, p');
    Distribute(b, q, q');
  }

  /** The entries of `xs` whose key is not selected; selected entries become zero. */
  function Unselected(xs: seq<real>, keys: seq<int>, chosen: seq<int>): (r: seq<real>)
    requires |xs| == |keys|
    ensures |r| == |xs|
    ensures forall i :: 0 <= i < |r| ==> r[i] == if keys[i] in chosen then 0.0 else xs[i]
  {
    seq(|xs|, i requires 0 <= i < |xs| => if keys[i] in chosen then 0.0 else xs[i])
  }

  /** Some position of the keyed values carries key `k` and value `x`. */
  ghost predicate Holds(xs: seq<real>, keys: seq<int>, k: int, x: real)
    requires |xs| == |keys|
  {
    exists i :: 0 <= i < |keys| && keys[i] == k && xs[i] == x
  }

  lemma UnselectOne(xs: seq<real>, keys: seq<int>, chosen: seq<int>, k: int, x: real)
    requires |xs| == |keys| && Distinct(keys)
    requires k !in chosen && Holds(xs, keys, k, x)
    ensures Sum(Unselected(xs, keys, chosen + [k])) == Sum(Unselected(xs, keys, chosen)) - x
  {
    var i :| 0 <= i < |keys| && keys[i] == k && xs[i] == x;
    assert Unselected(xs, keys, chosen + [k]) == Unselected(xs, keys, chosen)[i := 0.0];
    SumUpdate(Unselected(xs, keys, chosen), i, 0.0);
  }

  /** Picking distinct keys out of a sum splits it into the picked part and the rest. */
  lemma {:induction false} SumSplit(xs: seq<real>, keys: seq<int>, chosen: seq<int>, picked: seq<real>)
    requires |xs| == |keys| && Distinct(keys)
    requires |chosen| == |picked| && Distinct(chosen)
    requires forall j :: 0 <= j < |chosen| ==> Holds(xs, keys, chosen[j], picked[j])
    ensures Sum(picked) + Sum(Unselected(xs, keys, chosen)) == Sum(xs)
  {
    if |chosen| == 0 {
      assert Unselected(xs, keys, chosen) == xs;
    } else {
      var n := |chosen| - 1;
      var before := chosen[..n];
      SumSplit(xs, keys, before, picked[..n]);
      assert chosen == before + [chosen[n]];
      UnselectOne(xs, keys, before, chosen[n], picked[n]);
    }
  }

  lemma {:induction false} SumOfPermutation(xs: seq<real>, ys: seq<real>)
    requires multiset(xs) == multiset(ys)
    ensures Sum(xs) == Sum(ys)
    decreases |xs|
  {
    if |xs| == 0 {
      assert |multiset(ys)| == 0;
    } else {
      var last := xs[|xs| - 1];
      assert xs == xs[..|xs| - 1] + [last];
      assert last in multiset(xs);
      var i :| 0 <= i < |ys| && ys[i] == last;
      var rest := ys[..i] + ys[i + 1..];
      assert ys == ys[..i] + ([ys[i]] + ys[i + 1..]);
      assert multiset(rest) == multiset(ys) - multiset{last};
      assert multiset(xs[..|xs| - 1]) == multiset(xs) - multiset{last};
      SumOfPermutation(xs[..|xs| - 1], rest);
      SumConcat(ys[..i], ys[i + 1..]);
      SumConcat(ys[..i], [ys[i]] + ys[i + 1..]);
      SumConcat([ys[i]], ys[i + 1..]);
      SumSnoc([], ys[i]);
      assert [] + [ys[i]] == [ys[i]];
    }
  }
}
