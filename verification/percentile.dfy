/** Weighted percentiles of pooled window values (scripts/fidelity/metrics.py and analyze_campaign.py).

    The simple form concatenates the resampled windows, sorts and interpolates. The middle form keeps the
    pooled values sorted once and searches cumulative resampling counts. The fast form searches only a top
    slice of them and falls back to the middle form. All three are the same number. */
module Percentile {
  import opened Options
  import opened Counting
  import opened Sorting

  // ---------------------------------------------------------------- linear interpolation

  /** Fractional rank of percentile `q` among `n` ordered values. */
  function Rank(n: nat, q: real): (h: real)
    requires n > 0 && 0.0 <= q <= 100.0
    ensures 0.0 <= h <= (n - 1) as real
  {
    RankBounds((n - 1) as real, q);
    (n - 1) as real * q / 100.0
  }

  lemma RankBounds(k: real, q: real)
    requires k >= 0.0 && 0.0 <= q <= 100.0
    ensures 0.0 <= k * q / 100.0 <= k
  {
    assert k * q <= k * 100.0;
  }

  function Low(n: nat, q: real): (lo: nat)
    requires n > 0 && 0.0 <= q <= 100.0
    ensures lo < n
  {
    Rank(n, q).Floor
  }

  function High(n: nat, q: real): (hi: nat)
    requires n > 0 && 0.0 <= q <= 100.0
    ensures Low(n, q) <= hi < n
  {
    if Low(n, q) + 1 < n - 1 then Low(n, q) + 1 else n - 1
  }

  function Between(n: nat, q: real, low: real, high: real): real
    requires n > 0 && 0.0 <= q <= 100.0
  {
    low + (Rank(n, q) - Low(n, q) as real) * (high - low)
  }

  /** Percentile of an ascending sequence; none of an empty one. */
  function OfSorted(values: seq<real>, q: real): Option<real>
    requires 0.0 <= q <= 100.0
  {
    var n := |values|;
    if n == 0 then None else Some(Between(n, q, values[Low(n, q)], values[High(n, q)]))
  }

  // ---------------------------------------------------------------- what a percentile is

  /** The straight line from `values[k]` at `100 k` to `values[k + 1]` at `100 (k + 1)`. */
  function Line(values: seq<real>, k: nat, x: real): real
    requires k + 1 < |values|
  {
    values[k] + (x - 100.0 * k as real) / 100.0 * (values[k + 1] - values[k])
  }

  lemma LineEnds(values: seq<real>, k: nat)
    requires k + 1 < |values|
    ensures Line(values, k, 100.0 * k as real) == values[k] && Line(values, k, 100.0 * (k + 1) as real) == values[k + 1]
  {
    assert 100.0 * (k + 1) as real - 100.0 * k as real == 100.0;
  }

  /** A whole rank needs no interpolation. */
  lemma NoStep(n: nat, q: real, low: real, high: real)
    requires n > 0 && 0.0 <= q <= 100.0 && Rank(n, q) == Low(n, q) as real
    ensures Between(n, q, low, high) == low
  {
    var share := Rank(n, q) - Low(n, q) as real;
    assert share == 0.0;
    assert share * (high - low) == 0.0;
  }

  lemma Step(n: nat, q: real, values: seq<real>, k: nat, x: real)
    requires n > 0 && 0.0 <= q <= 100.0 && k + 1 < |values| && Low(n, q) == k && 100.0 * Rank(n, q) == x
    ensures Between(n, q, values[k], values[k + 1]) == Line(values, k, x)
  {
    var share, h := (x - 100.0 * k as real) / 100.0, Rank(n, q);
    hide Rank;
    assert share == h - k as real;
  }

  lemma RankTimes(n: nat, q: real, x: real)
    requires n > 0 && 0.0 <= q <= 100.0 && x == q * (n - 1) as real
    ensures 100.0 * Rank(n, q) == x
  {
  }

  /** Between two neighbouring points the percentile is on their line. */
  lemma OnLine(values: seq<real>, k: nat, q: real, x: real)
    requires 0.0 <= q <= 100.0 && k + 1 < |values| && x == q * (|values| - 1) as real
    requires 100.0 * k as real <= x <= 100.0 * (k + 1) as real
    ensures OfSorted(values, q) == Some(Line(values, k, x))
  {
    var n := |values|;
    RankTimes(n, q, x);
    hide Rank, Line, Between;
    if x == 100.0 * (k + 1) as real {
      assert Low(n, q) == k + 1;
      NoStep(n, q, values[k + 1], values[High(n, q)]);
      LineEnds(values, k);
    } else {
      assert Low(n, q) == k && High(n, q) == k + 1;
      Step(n, q, values, k, x);
    }
  }

  /** Between two neighbouring points, `100 k / (n - 1)` and the next, the percentile is their values' linear
      interpolation. */
  lemma PercentileInterpolates(values: seq<real>, k: nat, q: real)
    requires 0.0 <= q <= 100.0 && k + 1 < |values|
    requires 100.0 * k as real <= q * (|values| - 1) as real <= 100.0 * (k + 1) as real
    ensures
      var share := (q * (|values| - 1) as real - 100.0 * k as real) / 100.0;
      && 0.0 <= share <= 1.0
      && OfSorted(values, q) == Some(values[k] + share * (values[k + 1] - values[k]))
  {
    hide OfSorted;
    OnLine(values, k, q, q * (|values| - 1) as real);
  }

  /** At `q = 100 k / (n - 1)` the percentile is the value of index `k`. */
  lemma PercentileAtPoint(values: seq<real>, k: nat, q: real)
    requires 0.0 <= q <= 100.0 && k < |values| && q * (|values| - 1) as real == 100.0 * k as real
    ensures OfSorted(values, q) == Some(values[k])
  {
    var x := q * (|values| - 1) as real;
    if k + 1 < |values| {
      OnLine(values, k, q, x);
      LineEnds(values, k);
    } else if k > 0 {
      OnLine(values, k - 1, q, x);
      LineEnds(values, k - 1);
    } else {
      RankTimes(1, q, x);
      NoStep(1, q, values[0], values[0]);
    }
  }

  /** The zeroth percentile is the first value and the hundredth the last. */
  lemma PercentileEnds(values: seq<real>)
    requires |values| > 0
    ensures OfSorted(values, 0.0) == Some(values[0]) && OfSorted(values, 100.0) == Some(values[|values| - 1])
  {
    hide OfSorted;
    PercentileAtPoint(values, 0, 0.0);
    PercentileAtPoint(values, |values| - 1, 100.0);
  }

  /** The index below a percentile. */
  lemma PointBelow(n: nat, q: real, x: real) returns (k: nat)
    requires n > 1 && 0.0 <= q <= 100.0 && x == q * (n - 1) as real
    ensures k + 1 < n && 100.0 * k as real <= x <= 100.0 * (k + 1) as real
  {
    var h := Rank(n, q);
    RankTimes(n, q, x);
    hide Rank;
    k := if h.Floor < n - 1 then h.Floor else n - 2;
  }

  /** In ascending values a larger percentile is no smaller. */
  lemma PercentileRises(values: seq<real>, q: real, r: real)
    requires |values| > 0 && 0.0 <= q <= r <= 100.0 && Sorted(values)
    ensures OfSorted(values, q).value <= OfSorted(values, r).value
  {
    hide OfSorted, Line, Sorted;
    var n := |values|;
    if n == 1 {
      PercentileAtPoint(values, 0, q);
      PercentileAtPoint(values, 0, r);
    } else {
      var x, y := Scaled((n - 1) as real, q, r);
      var j := PointBelow(n, q, x);
      var k := PointBelow(n, r, y);
      OnLine(values, j, q, x);
      OnLine(values, k, r, y);
      LinesRise(values, j, k, x, y);
    }
  }

  lemma LinesRise(values: seq<real>, j: nat, k: nat, x: real, y: real)
    requires Sorted(values) && j + 1 < |values| && k + 1 < |values| && x <= y
    requires 100.0 * j as real <= x <= 100.0 * (j + 1) as real && 100.0 * k as real <= y <= 100.0 * (k + 1) as real
    ensures Line(values, j, x) <= Line(values, k, y)
  {
    hide Line;
    if j == k {
      LineRises(values, j, x, y);
    } else if j < k {
      LineRises(values, j, x, 100.0 * (j + 1) as real);
      LineRises(values, k, 100.0 * k as real, y);
      LineEnds(values, j);
      LineEnds(values, k);
    } else {
      assert j == k + 1 && x == y == 100.0 * j as real;
      LineEnds(values, j);
      LineEnds(values, k);
    }
  }

  lemma LineRises(values: seq<real>, k: nat, x: real, y: real)
    requires Sorted(values) && k + 1 < |values| && x <= y
    ensures Line(values, k, x) <= Line(values, k, y)
  {
    var a, b := Scaled(values[k + 1] - values[k], (x - 100.0 * k as real) / 100.0, (y - 100.0 * k as real) / 100.0);
  }

  lemma Scaled(k: real, q: real, r: real) returns (x: real, y: real)
    requires k >= 0.0 && q <= r
    ensures x == q * k && y == r * k && x <= y
  {
    x, y := q * k, r * k;
  }

  // ---------------------------------------------------------------- pooled values and resampling

  /** A pooled value with the group it came from. */
  datatype Labeled = Labeled(value: real, group: nat)

  function ValuesOf(pool: seq<Labeled>): (r: seq<real>)
    ensures |r| == |pool| && forall i :: 0 <= i < |r| ==> r[i] == pool[i].value
  {
    seq(|pool|, i requires 0 <= i < |pool| => pool[i].value)
  }

  /** The values of one group, in pool order. */
  function Window(pool: seq<Labeled>, g: nat): seq<real> {
    if |pool| == 0 then []
    else Window(pool[..|pool| - 1], g) + if pool[|pool| - 1].group == g then [pool[|pool| - 1].value] else []
  }

  /** Windows written out one after the other with their index as label. */
  function Flatten(windows: seq<seq<real>>): (r: seq<Labeled>)
    ensures forall i :: 0 <= i < |r| ==> r[i].group < |windows|
  {
    if |windows| == 0 then []
    else
      var n := |windows| - 1;
      Flatten(windows[..n]) + seq(|windows[n]|, i requires 0 <= i < |windows[n]| => Labeled(windows[n][i], n))
  }

  /** Concatenation of the resampled windows. */
  function Resampled(pool: seq<Labeled>, idx: seq<nat>): seq<real> {
    if |idx| == 0 then [] else Resampled(pool, idx[..|idx| - 1]) + Window(pool, idx[|idx| - 1])
  }

  /** The simple form: concatenate, sort, interpolate. */
  function Simple(pool: seq<Labeled>, idx: seq<nat>, q: real): Option<real>
    requires 0.0 <= q <= 100.0
  {
    OfSorted(Sort(Resampled(pool, idx)), q)
  }

  function GroupsOf(pool: seq<Labeled>): (r: seq<nat>)
    ensures |r| == |pool| && forall i :: 0 <= i < |r| ==> r[i] == pool[i].group
  {
    seq(|pool|, i requires 0 <= i < |pool| => pool[i].group)
  }

  ghost predicate LabelsBelow(pool: seq<Labeled>, groups: nat) {
    forall i :: 0 <= i < |pool| ==> pool[i].group < groups
  }

  // ---------------------------------------------------------------- stable sort by value

  function Place(sorted: seq<Labeled>, x: Labeled): seq<Labeled> {
    if |sorted| == 0 || sorted[|sorted| - 1].value <= x.value then sorted + [x]
    else Place(sorted[..|sorted| - 1], x) + [sorted[|sorted| - 1]]
  }

  /** Stable ascending order by value. */
  function Ordered(pool: seq<Labeled>): seq<Labeled> {
    if |pool| == 0 then [] else Place(Ordered(pool[..|pool| - 1]), pool[|pool| - 1])
  }

  ghost predicate Ascending(pool: seq<Labeled>) {
    forall i, j :: 0 <= i < j < |pool| ==> pool[i].value <= pool[j].value
  }

  lemma {:induction false} PlaceKeeps(sorted: seq<Labeled>, x: Labeled)
    ensures multiset(Place(sorted, x)) == multiset(sorted) + multiset{x}
  {
    if |sorted| == 0 || sorted[|sorted| - 1].value <= x.value {
    } else {
      assert sorted == sorted[..|sorted| - 1] + [sorted[|sorted| - 1]];
      PlaceKeeps(sorted[..|sorted| - 1], x);
    }
  }

  lemma AscendingSnoc(pool: seq<Labeled>, x: Labeled)
    requires Ascending(pool) && (|pool| > 0 ==> pool[|pool| - 1].value <= x.value)
    ensures Ascending(pool + [x])
  {
  }

  lemma {:induction false} PlaceAscending(sorted: seq<Labeled>, x: Labeled)
    requires Ascending(sorted)
    ensures Ascending(Place(sorted, x)) && |Place(sorted, x)| > 0
    ensures Place(sorted, x)[|Place(sorted, x)| - 1].value
         == if |sorted| == 0 || sorted[|sorted| - 1].value <= x.value then x.value else sorted[|sorted| - 1].value
  {
    if |sorted| == 0 || sorted[|sorted| - 1].value <= x.value {
      AscendingSnoc(sorted, x);
    } else {
      PlaceAscending(sorted[..|sorted| - 1], x);
      AscendingSnoc(Place(sorted[..|sorted| - 1], x), sorted[|sorted| - 1]);
    }
  }

  lemma {:induction false} OrderedMeaning(pool: seq<Labeled>)
    ensures Ascending(Ordered(pool)) && multiset(Ordered(pool)) == multiset(pool)
  {
    if |pool| == 0 {
    } else {
      var front := pool[..|pool| - 1];
      assert pool == front + [pool[|pool| - 1]];
      OrderedMeaning(front);
      PlaceKeeps(Ordered(front), pool[|pool| - 1]);
      PlaceAscending(Ordered(front), pool[|pool| - 1]);
    }
  }

  // ---------------------------------------------------------------- middle and fast forms

  /** Running resampling counts along a pool. */
  function Cumulative(pool: seq<Labeled>, mult: seq<nat>): (r: seq<nat>)
    requires LabelsBelow(pool, |mult|)
    ensures |r| == |pool|
  {
    if |pool| == 0 then []
    else
      var front := Cumulative(pool[..|pool| - 1], mult);
      front + [(if |front| == 0 then 0 else front[|front| - 1]) + mult[pool[|pool| - 1].group]]
  }

  /** `searchsorted(side="right")`: how many leading entries are at most `x`. */
  function SearchRight(cum: seq<nat>, x: nat): (i: nat)
    ensures i <= |cum|
    ensures forall j :: 0 <= j < i ==> cum[j] <= x
    ensures i < |cum| ==> cum[i] > x
  {
    if |cum| == 0 || cum[0] > x then 0
    else
      var rest := SearchRight(cum[1..], x);
      assert forall j :: 1 <= j < rest + 1 ==> cum[j] == cum[1..][j - 1];
      rest + 1
  }

  function CountOf(pool: seq<Labeled>, groups: nat): (r: seq<nat>)
    requires LabelsBelow(pool, groups)
    ensures |r| == groups
  {
    Bincount(GroupsOf(pool), groups)
  }

  /** The value at rank `r`, by searching the cumulative counts of `pool`. */
  function AtRank(pool: seq<Labeled>, mult: seq<nat>, r: nat): real
    requires LabelsBelow(pool, |mult|) && r < Drawn(pool, mult)
  {
    RankFound(pool, mult, r);
    pool[SearchRight(Cumulative(pool, mult), r)].value
  }

  /** Two neighbouring order statistics of `total` values. */
  datatype Neighbours = Neighbours(low: real, high: real)

  function Interpolated(total: nat, q: real, at: Neighbours): real
    requires total > 0 && 0.0 <= q <= 100.0
  {
    Between(total, q, at.low, at.high)
  }

  function MiddleNeighbours(pool: seq<Labeled>, mult: seq<nat>, lo: nat, hi: nat): Neighbours
    requires LabelsBelow(pool, |mult|) && lo <= hi < Drawn(pool, mult)
  {
    Neighbours(AtRank(pool, mult, lo), AtRank(pool, mult, hi))
  }

  /** The middle form. */
  function Middle(pool: seq<Labeled>, mult: seq<nat>, q: real): Option<real>
    requires LabelsBelow(pool, |mult|) && 0.0 <= q <= 100.0
  {
    var total := Drawn(pool, mult);
    if total == 0 then None
    else Some(Interpolated(total, q, MiddleNeighbours(pool, mult, Low(total, q), High(total, q))))
  }

  /** Pooled values prepared once: sorted, with group counts of the whole and of the part below `start`. */
  datatype Pooled = Pooled(sorted: seq<Labeled>, groups: nat, start: nat, counts: seq<nat>, below: seq<nat>)

  function Prepare(pool: seq<Labeled>, groups: nat, start: nat): Pooled
    requires LabelsBelow(pool, groups) && start <= |pool|
  {
    OrderedLabels(pool, groups);
    var sorted := Ordered(pool);
    Pooled(sorted, groups, start, CountOf(sorted, groups), CountOf(sorted[..start], groups))
  }

  /** Where the top slice starts. The slice holds at least a twentieth of the values and at least 4096 of them, or
      everything, and no more values than that takes. */
  function SliceStart(size: nat): (start: nat)
    ensures start <= size
    ensures start > 0 ==> 20 * (size - start) >= size && size - start >= 4096
    ensures size - start > 4096 ==> 20 * (size - start - 1) < size
  {
    var twentieth := (size + 19) / 20;
    var wanted := if twentieth > 4096 then twentieth else 4096;
    size - if wanted < size then wanted else size
  }

  ghost predicate Prepared(p: Pooled) {
    && LabelsBelow(p.sorted, p.groups) && p.start <= |p.sorted|
    && p.counts == CountOf(p.sorted, p.groups) && p.below == CountOf(p.sorted[..p.start], p.groups)
  }

  /** Look in the top slice when the lower rank reaches it, in the whole otherwise. */
  function FastNeighbours(p: Pooled, mult: seq<nat>, lo: nat, hi: nat): Neighbours
    requires Prepared(p) && |mult| == p.groups && lo <= hi < Drawn(p.sorted, mult)
  {
    CountsGiveDrawn(p.sorted[..p.start], mult);
    DrawnSplit(p.sorted, mult, p.start);
    var below := Weighted(mult, p.below);
    if lo >= below then MiddleNeighbours(p.sorted[p.start..], mult, lo - below, hi - below)
    else MiddleNeighbours(p.sorted, mult, lo, hi)
  }

  /** The fast form. */
  function Fast(p: Pooled, mult: seq<nat>, q: real): Option<real>
    requires Prepared(p) && |mult| == p.groups && 0.0 <= q <= 100.0
  {
    CountsGiveDrawn(p.sorted, mult);
    var total := Weighted(mult, p.counts);
    if total == 0 then None
    else Some(Interpolated(total, q, FastNeighbours(p, mult, Low(total, q), High(total, q))))
  }

  // ---------------------------------------------------------------- the expanded pool

  function Repeat(x: real, n: nat): (r: seq<real>)
    ensures |r| == n && forall i :: 0 <= i < n ==> r[i] == x
  {
    seq(n, _ => x)
  }

  /** Every value repeated as often as its group was drawn. */
  function Expand(pool: seq<Labeled>, mult: seq<nat>): seq<real>
    requires LabelsBelow(pool, |mult|)
  {
    if |pool| == 0 then []
    else Expand(pool[..|pool| - 1], mult) + Repeat(pool[|pool| - 1].value, mult[pool[|pool| - 1].group])
  }

  /** How many values a resampling draws. */
  function Drawn(pool: seq<Labeled>, mult: seq<nat>): nat
    requires LabelsBelow(pool, |mult|)
  {
    if |pool| == 0 then 0 else Drawn(pool[..|pool| - 1], mult) + mult[pool[|pool| - 1].group]
  }

  lemma {:induction false} ExpandSize(pool: seq<Labeled>, mult: seq<nat>)
    requires LabelsBelow(pool, |mult|)
    ensures |Expand(pool, mult)| == Drawn(pool, mult)
    ensures |pool| > 0 ==> Cumulative(pool, mult)[|pool| - 1] == Drawn(pool, mult)
  {
    if |pool| == 0 {
    } else {
      ExpandSize(pool[..|pool| - 1], mult);
    }
  }

  /** Cumulative counts never decrease, and stay at most the number drawn. */
  lemma {:induction false} CumulativeBelowDrawn(pool: seq<Labeled>, mult: seq<nat>)
    requires LabelsBelow(pool, |mult|)
    ensures forall i :: 0 <= i < |pool| ==> Cumulative(pool, mult)[i] <= Drawn(pool, mult)
  {
    if |pool| == 0 {
    } else {
      CumulativeBelowDrawn(pool[..|pool| - 1], mult);
      ExpandSize(pool, mult);
    }
  }

  lemma RankFound(pool: seq<Labeled>, mult: seq<nat>, r: nat)
    requires LabelsBelow(pool, |mult|) && r < Drawn(pool, mult)
    ensures SearchRight(Cumulative(pool, mult), r) < |pool|
  {
    ExpandSize(pool, mult);
  }

  lemma SearchUnique(cum: seq<nat>, x: nat, i: nat)
    requires i <= |cum| && (forall j :: 0 <= j < i ==> cum[j] <= x) && (i < |cum| ==> cum[i] > x)
    ensures SearchRight(cum, x) == i
  {
  }

  /** Searching the counts finds the expanded pool's own entry. */
  lemma {:induction false} AtRankMeaning(pool: seq<Labeled>, mult: seq<nat>, r: nat)
    requires LabelsBelow(pool, |mult|) && r < Drawn(pool, mult)
    ensures |Expand(pool, mult)| == Drawn(pool, mult) && AtRank(pool, mult, r) == Expand(pool, mult)[r]
  {
    var n := |pool| - 1;
    var front := pool[..n];
    ExpandSize(pool, mult);
    ExpandSize(front, mult);
    RankFound(pool, mult, r);
    if r < Drawn(front, mult) {
      AtRankMeaning(front, mult, r);
      RankFound(front, mult, r);
      SearchUnique(Cumulative(pool, mult), r, SearchRight(Cumulative(front, mult), r));
    } else {
      CumulativeBelowDrawn(front, mult);
      SearchUnique(Cumulative(pool, mult), r, n);
    }
  }

  lemma {:induction false} ExpandSplit(pool: seq<Labeled>, mult: seq<nat>, start: nat)
    requires LabelsBelow(pool, |mult|) && start <= |pool|
    ensures Expand(pool, mult) == Expand(pool[..start], mult) + Expand(pool[start..], mult)
  {
    if start == |pool| {
      assert pool[..start] == pool;
    } else {
      var n := |pool| - 1;
      ExpandSplit(pool[..n], mult, start);
      assert pool[..n][..start] == pool[..start];
      assert pool[start..][..n - start] == pool[..n][start..];
    }
  }

  lemma DrawnSplit(pool: seq<Labeled>, mult: seq<nat>, start: nat)
    requires LabelsBelow(pool, |mult|) && start <= |pool|
    ensures Drawn(pool, mult) == Drawn(pool[..start], mult) + Drawn(pool[start..], mult)
  {
    ExpandSplit(pool, mult, start);
    ExpandSize(pool, mult);
    ExpandSize(pool[..start], mult);
    ExpandSize(pool[start..], mult);
  }

  /** The multiplicity-count product is the number of values drawn. */
  lemma {:induction false} CountsGiveDrawn(pool: seq<Labeled>, mult: seq<nat>)
    requires LabelsBelow(pool, |mult|)
    ensures Weighted(mult, CountOf(pool, |mult|)) == Drawn(pool, mult)
  {
    if |pool| == 0 {
      WeightedZero(mult, CountOf(pool, |mult|));
    } else {
      CountsGiveDrawn(pool[..|pool| - 1], mult);
      assert GroupsOf(pool)[..|pool| - 1] == GroupsOf(pool[..|pool| - 1]);
      WeightedBump(mult, CountOf(pool[..|pool| - 1], |mult|), pool[|pool| - 1].group);
    }
  }

  // ---------------------------------------------------------------- expansion is the resampled data

  lemma {:induction false} ExpandAscending(pool: seq<Labeled>, mult: seq<nat>)
    requires LabelsBelow(pool, |mult|) && Ascending(pool)
    ensures Sorted(Expand(pool, mult))
    ensures |pool| > 0 ==> forall i :: 0 <= i < |Expand(pool, mult)| ==> Expand(pool, mult)[i] <= pool[|pool| - 1].value
  {
    if |pool| == 0 {
    } else {
      ExpandAscending(pool[..|pool| - 1], mult);
    }
  }

  lemma {:induction false} ExpandNothing(pool: seq<Labeled>, mult: seq<nat>)
    requires LabelsBelow(pool, |mult|) && forall g :: 0 <= g < |mult| ==> mult[g] == 0
    ensures Expand(pool, mult) == []
  {
    if |pool| == 0 {
    } else {
      ExpandNothing(pool[..|pool| - 1], mult);
    }
  }

  /** Drawing group `g` once more adds one copy of its window. */
  lemma {:induction false} ExpandBump(pool: seq<Labeled>, mult: seq<nat>, g: nat)
    requires LabelsBelow(pool, |mult|) && g < |mult|
    ensures multiset(Expand(pool, mult[g := mult[g] + 1])) == multiset(Expand(pool, mult)) + multiset(Window(pool, g))
  {
    if |pool| == 0 {
    } else {
      var last := pool[|pool| - 1];
      ExpandBump(pool[..|pool| - 1], mult, g);
      if last.group == g {
        assert Repeat(last.value, mult[g] + 1) == Repeat(last.value, mult[g]) + [last.value];
      }
    }
  }

  ghost predicate SameValues(a: seq<real>, b: seq<real>) {
    multiset(a) == multiset(b)
  }

  lemma AppendSame(a: seq<real>, a': seq<real>, b: seq<real>, w: seq<real>)
    requires SameValues(a, b) && multiset(a') == multiset(a) + multiset(w)
    ensures SameValues(a', b + w)
  {
  }

  /** Expanding by the counts of an index list gives the values of the resampled windows. */
  lemma {:induction false} ExpandIsResampled(pool: seq<Labeled>, mult: seq<nat>, idx: seq<nat>)
    requires LabelsBelow(pool, |mult|) && Below(idx, |mult|) && mult == Bincount(idx, |mult|)
    ensures SameValues(Expand(pool, mult), Resampled(pool, idx))
    decreases |idx|
  {
    hide Expand, SameValues, LabelsBelow, Window;
    if |idx| == 0 {
      NothingResampled(pool, mult);
    } else {
      var front, g := idx[..|idx| - 1], idx[|idx| - 1];
      var before := Bincount(front, |mult|);
      ExpandIsResampled(pool, before, front);
      DrawOneMore(pool, before, Resampled(pool, front), g);
    }
  }

  lemma NothingResampled(pool: seq<Labeled>, mult: seq<nat>)
    requires LabelsBelow(pool, |mult|) && mult == Bincount([], |mult|)
    ensures SameValues(Expand(pool, mult), Resampled(pool, []))
  {
    ExpandNothing(pool, mult);
  }

  lemma DrawOneMore(pool: seq<Labeled>, mult: seq<nat>, drawn: seq<real>, g: nat)
    requires LabelsBelow(pool, |mult|) && g < |mult| && SameValues(Expand(pool, mult), drawn)
    ensures SameValues(Expand(pool, mult[g := mult[g] + 1]), drawn + Window(pool, g))
  {
    ExpandBump(pool, mult, g);
    AppendSame(Expand(pool, mult), Expand(pool, mult[g := mult[g] + 1]), drawn, Window(pool, g));
  }

  lemma ExpandDrop(pool: seq<Labeled>, mult: seq<nat>, i: nat)
    requires LabelsBelow(pool, |mult|) && i < |pool|
    ensures multiset(Expand(pool, mult))
         == multiset(Expand(pool[..i] + pool[i + 1..], mult)) + multiset(Repeat(pool[i].value, mult[pool[i].group]))
  {
    var rest := pool[..i] + pool[i + 1..];
    ExpandSplit(pool, mult, i);
    ExpandSplit(pool[i..], mult, 1);
    assert pool[i..][..1] == [pool[i]] && pool[i..][1..] == pool[i + 1..];
    assert [pool[i]][..0] == [];
    ExpandSplit(rest, mult, i);
    assert rest[..i] == pool[..i] && rest[i..] == pool[i + 1..];
  }

  /** Expansion does not depend on the order of the pool. */
  lemma {:induction false} ExpandPermutation(a: seq<Labeled>, b: seq<Labeled>, mult: seq<nat>)
    requires LabelsBelow(a, |mult|) && LabelsBelow(b, |mult|) && multiset(a) == multiset(b)
    ensures multiset(Expand(a, mult)) == multiset(Expand(b, mult))
    decreases |a|
  {
    if |a| == 0 {
      assert |multiset(b)| == 0;
    } else {
      var last := a[|a| - 1];
      assert a == a[..|a| - 1] + [last];
      assert last in multiset(b);
      var i :| 0 <= i < |b| && b[i] == last;
      DropKeepsMultiset(b, i);
      ExpandPermutation(a[..|a| - 1], b[..i] + b[i + 1..], mult);
      ExpandDrop(b, mult, i);
    }
  }

  lemma DropKeepsMultiset(b: seq<Labeled>, i: nat)
    requires i < |b|
    ensures multiset(b[..i] + b[i + 1..]) == multiset(b) - multiset{b[i]}
  {
    assert b == b[..i] + ([b[i]] + b[i + 1..]);
  }

  lemma OrderedLabels(pool: seq<Labeled>, groups: nat)
    requires LabelsBelow(pool, groups)
    ensures LabelsBelow(Ordered(pool), groups) && |Ordered(pool)| == |pool|
  {
    OrderedMeaning(pool);
    assert |Ordered(pool)| == |multiset(Ordered(pool))| == |multiset(pool)| == |pool|;
    forall i | 0 <= i < |Ordered(pool)| ensures Ordered(pool)[i].group < groups {
      assert Ordered(pool)[i] in multiset(pool);
    }
  }

  // ---------------------------------------------------------------- the three forms agree

  lemma MiddleMeaning(pool: seq<Labeled>, mult: seq<nat>, q: real)
    requires LabelsBelow(pool, |mult|) && 0.0 <= q <= 100.0
    ensures Middle(pool, mult, q) == OfSorted(Expand(pool, mult), q)
  {
    ExpandSize(pool, mult);
    var total := Drawn(pool, mult);
    if total > 0 {
      AtRankMeaning(pool, mult, Low(total, q));
      AtRankMeaning(pool, mult, High(total, q));
    }
  }

  lemma FastFindsNeighbours(p: Pooled, mult: seq<nat>, lo: nat, hi: nat)
    requires Prepared(p) && |mult| == p.groups && lo <= hi < Drawn(p.sorted, mult)
    ensures FastNeighbours(p, mult, lo, hi) == MiddleNeighbours(p.sorted, mult, lo, hi)
  {
    CountsGiveDrawn(p.sorted[..p.start], mult);
    if lo >= Drawn(p.sorted[..p.start], mult) {
      TopSliceRank(p.sorted, mult, p.start, lo);
      TopSliceRank(p.sorted, mult, p.start, hi);
    }
  }

  lemma FastMeaning(p: Pooled, mult: seq<nat>, q: real)
    requires Prepared(p) && |mult| == p.groups && 0.0 <= q <= 100.0
    ensures Fast(p, mult, q) == Middle(p.sorted, mult, q)
  {
    CountsGiveDrawn(p.sorted, mult);
    var total := Drawn(p.sorted, mult);
    if total > 0 {
      FastFindsNeighbours(p, mult, Low(total, q), High(total, q));
    }
  }

  lemma TopSliceRank(pool: seq<Labeled>, mult: seq<nat>, start: nat, r: nat)
    requires LabelsBelow(pool, |mult|) && start <= |pool|
    requires Drawn(pool[..start], mult) <= r < Drawn(pool, mult)
    ensures r - Drawn(pool[..start], mult) < Drawn(pool[start..], mult)
    ensures AtRank(pool[start..], mult, r - Drawn(pool[..start], mult)) == AtRank(pool, mult, r)
  {
    DrawnSplit(pool, mult, start);
    ExpandSplit(pool, mult, start);
    ExpandSize(pool[..start], mult);
    AtRankMeaning(pool, mult, r);
    AtRankMeaning(pool[start..], mult, r - Drawn(pool[..start], mult));
  }

  /** Refinement: for every pool, every resampling, every percentile and every slice start, sorting the
      concatenated windows, searching the cumulative counts and searching the top slice agree. */
  lemma PercentileRefinement(pool: seq<Labeled>, groups: nat, idx: seq<nat>, q: real, start: nat)
    requires LabelsBelow(pool, groups) && Below(idx, groups)
    requires 0.0 <= q <= 100.0 && start <= |pool|
    ensures
      var p, mult := Prepare(pool, groups, start), Bincount(idx, groups);
      && Prepared(p)
      && Middle(p.sorted, mult, q) == Simple(pool, idx, q)
      && Fast(p, mult, q) == Simple(pool, idx, q)
  {
    var p, mult := Prepare(pool, groups, start), Bincount(idx, groups);
    OrderedLabels(pool, groups);
    OrderedMeaning(pool);
    ExpandPermutation(p.sorted, pool, mult);
    ExpandIsResampled(pool, mult, idx);
    ExpandAscending(p.sorted, mult);
    SortMeaning(Resampled(pool, idx));
    SortedUnique(Expand(p.sorted, mult), Sort(Resampled(pool, idx)));
    MiddleMeaning(p.sorted, mult, q);
    FastMeaning(p, mult, q);
  }

  /** Labelling windows by their index and picking one label gives the window back. */
  lemma {:induction false} FlattenWindows(windows: seq<seq<real>>, g: nat)
    ensures Window(Flatten(windows), g) == if g < |windows| then windows[g] else []
  {
    if |windows| == 0 {
    } else {
      var n := |windows| - 1;
      FlattenWindows(windows[..n], g);
      var added := seq(|windows[n]|, i requires 0 <= i < |windows[n]| => Labeled(windows[n][i], n));
      WindowOfLabeled(Flatten(windows[..n]), added, windows[n], n, g);
    }
  }

  lemma {:induction false} WindowOfLabeled(pool: seq<Labeled>, added: seq<Labeled>, values: seq<real>, n: nat, g: nat)
    requires |added| == |values| && forall i :: 0 <= i < |added| ==> added[i] == Labeled(values[i], n)
    ensures Window(pool + added, g) == Window(pool, g) + if g == n then values else []
  {
    if |added| == 0 {
      assert pool + added == pool;
    } else {
      var k := |added| - 1;
      WindowOfLabeled(pool, added[..k], values[..k], n, g);
      assert (pool + added)[..|pool| + k] == pool + added[..k];
    }
  }

  /** The unweighted percentile of the prepared pool is that of the sorted pooled values. */
  lemma UnweightedPercentile(pool: seq<Labeled>, groups: nat, start: nat, q: real)
    requires LabelsBelow(pool, groups) && start <= |pool| && 0.0 <= q <= 100.0
    ensures OfSorted(ValuesOf(Prepare(pool, groups, start).sorted), q) == OfSorted(Sort(ValuesOf(pool)), q)
  {
    OrderedMeaning(pool);
    SortMeaning(ValuesOf(pool));
    ValuesPermutation(Ordered(pool), pool);
    SortedUnique(ValuesOf(Ordered(pool)), Sort(ValuesOf(pool)));
  }

  lemma ValuesDrop(b: seq<Labeled>, i: nat)
    requires i < |b|
    ensures multiset(ValuesOf(b)) == multiset(ValuesOf(b[..i] + b[i + 1..])) + multiset{b[i].value}
  {
    var before, after := ValuesOf(b[..i]), ValuesOf(b[i + 1..]);
    assert ValuesOf(b) == before + ([b[i].value] + after);
    assert ValuesOf(b[..i] + b[i + 1..]) == before + after;
  }

  lemma {:induction false} ValuesPermutation(a: seq<Labeled>, b: seq<Labeled>)
    requires multiset(a) == multiset(b)
    ensures multiset(ValuesOf(a)) == multiset(ValuesOf(b))
    decreases |a|
  {
    if |a| == 0 {
      assert |multiset(b)| == 0;
    } else {
      var n := |a| - 1;
      assert a[n] in multiset(a);
      var i :| 0 <= i < |b| && b[i] == a[n];
      DropKeepsMultiset(a, n);
      DropKeepsMultiset(b, i);
      ValuesPermutation(a[..n] + a[n + 1..], b[..i] + b[i + 1..]);
      ValuesDrop(a, n);
      ValuesDrop(b, i);
    }
  }
}
