/** Group sums and the group bootstrap (scripts/fidelity/analyze_campaign.py, against the per-index form
    of scripts/fidelity/metrics.py). */
module GroupBootstrap {
  import opened Counting
  import opened Options
  import opened Sums

  // ---------------------------------------------------------------- resampling counts

  /** Row `b` of the resampling matrix counts how often each group occurs in index list `b`. */
  method FillMultiplicity(idx: seq<seq<nat>>, groups: nat) returns (out: array2<nat>)
    requires forall b :: 0 <= b < |idx| ==> Below(idx[b], groups)
    ensures fresh(out) && out.Length0 == |idx| && out.Length1 == groups
    ensures forall b, g :: 0 <= b < |idx| && 0 <= g < groups ==> out[b, g] == Bincount(idx[b], groups)[g]
  {
    out := new nat[|idx|, groups]((_, _) => 0);
    for b := 0 to |idx|
      invariant forall c, g :: 0 <= c < b && 0 <= g < groups ==> out[c, g] == Bincount(idx[c], groups)[g]
      invariant forall c, g :: b <= c < |idx| && 0 <= g < groups ==> out[c, g] == 0
    {
      for k := 0 to |idx[b]|
        invariant forall c, g :: 0 <= c < b && 0 <= g < groups ==> out[c, g] == Bincount(idx[c], groups)[g]
        invariant forall c, g :: b < c < |idx| && 0 <= g < groups ==> out[c, g] == 0
        invariant forall g :: 0 <= g < groups ==> out[b, g] == Bincount(idx[b][..k], groups)[g]
      {
        var g := idx[b][k];
        assert idx[b][..k + 1][..k] == idx[b][..k];
        out[b, g] := out[b, g] + 1;
      }
      assert idx[b][..|idx[b]|] == idx[b];
    }
  }

  /** A row of the matrix times group sums. */
  function Product(mult: seq<nat>, s: seq<real>): real
    requires |mult| == |s|
  {
    if |s| == 0 then 0.0
    else Product(mult[..|s| - 1], s[..|s| - 1]) + mult[|s| - 1] as real * s[|s| - 1]
  }

  /** The sum over the index list itself. */
  function DrawnSum(s: seq<real>, idx: seq<nat>): real
    requires Below(idx, |s|)
  {
    if |idx| == 0 then 0.0 else DrawnSum(s, idx[..|idx| - 1]) + s[idx[|idx| - 1]]
  }

  lemma {:induction false} ProductBump(mult: seq<nat>, s: seq<real>, g: nat)
    requires |mult| == |s| && g < |s|
    ensures Product(mult[g := mult[g] + 1], s) == Product(mult, s) + s[g]
  {
    var n := |s| - 1;
    if g < n {
      ProductBump(mult[..n], s[..n], g);
      assert mult[g := mult[g] + 1][..n] == mult[..n][g := mult[..n][g] + 1];
    } else {
      assert mult[g := mult[g] + 1][..n] == mult[..n];
      Distribute(s[n], mult[n] as real, 1.0);
    }
  }

  lemma {:induction false} ProductZero(mult: seq<nat>, s: seq<real>)
    requires |mult| == |s| && forall g :: 0 <= g < |mult| ==> mult[g] == 0
    ensures Product(mult, s) == 0.0
  {
    if |s| == 0 {
    } else {
      ProductZero(mult[..|s| - 1], s[..|s| - 1]);
    }
  }

  /** Multiplying by the counts of an index list equals summing over the list. */
  lemma {:induction false} ProductIsDrawnSum(s: seq<real>, idx: seq<nat>)
    requires Below(idx, |s|)
    ensures Product(Bincount(idx, |s|), s) == DrawnSum(s, idx)
  {
    if |idx| == 0 {
      ProductZero(Bincount(idx, |s|), s);
    } else {
      ProductIsDrawnSum(s, idx[..|idx| - 1]);
      ProductBump(Bincount(idx[..|idx| - 1], |s|), s, idx[|idx| - 1]);
    }
  }

  // ---------------------------------------------------------------- grouping a selection

  /** Entries where the flag is set, in order. */
  function Selected<T>(xs: seq<T>, flags: seq<bool>): (r: seq<T>)
    requires |xs| == |flags|
    ensures |r| <= |xs|
    ensures forall k :: 0 <= k < |r| ==> r[k] in xs
  {
    if |xs| == 0 then []
    else Selected(xs[..|xs| - 1], flags[..|xs| - 1]) + if flags[|xs| - 1] then [xs[|xs| - 1]] else []
  }

  lemma {:induction false} SelectedSameLength<T, U>(xs: seq<T>, ys: seq<U>, flags: seq<bool>)
    requires |xs| == |ys| == |flags|
    ensures |Selected(xs, flags)| == |Selected(ys, flags)|
  {
    if |xs| == 0 {
    } else {
      SelectedSameLength(xs[..|xs| - 1], ys[..|xs| - 1], flags[..|xs| - 1]);
    }
  }

  /** `flatnonzero(bincount(...))`: the groups below `n` that occur, ascending. */
  function Kept(grp: seq<nat>, n: nat): (r: seq<nat>)
    ensures forall g :: g in r <==> g in grp && g < n
  {
    if n == 0 then [] else Kept(grp, n - 1) + if n - 1 in grp then [n - 1] else []
  }

  /** The rank of a group among the kept ones. */
  function RankOf(kept: seq<nat>, g: nat): (i: nat)
    requires g in kept
    ensures i < |kept| && kept[i] == g
  {
    if kept[|kept| - 1] == g then |kept| - 1
    else
      assert kept == kept[..|kept| - 1] + [kept[|kept| - 1]];
      RankOf(kept[..|kept| - 1], g)
  }

  /** One more than the largest label. */
  function Span(grp: seq<nat>): (n: nat)
    ensures Below(grp, n)
  {
    if |grp| == 0 then 0
    else
      var front, last := Span(grp[..|grp| - 1]), grp[|grp| - 1];
      if last < front then front else last + 1
  }

  /** Positions of a selection with dense group labels. */
  datatype Groups = Groups(sel: seq<bool>, labels: seq<nat>, n: nat)

  function Relabel(grp: seq<nat>, kept: seq<nat>): (r: seq<nat>)
    requires forall k :: 0 <= k < |grp| ==> grp[k] in kept
    ensures |r| == |grp| && forall k :: 0 <= k < |r| ==> r[k] == RankOf(kept, grp[k])
  {
    seq(|grp|, k requires 0 <= k < |grp| => RankOf(kept, grp[k]))
  }

  function Build(grp: seq<nat>, sel: seq<bool>): Groups
    requires |grp| == |sel|
  {
    var chosen := Selected(grp, sel);
    var kept := Kept(chosen, Span(chosen));
    Groups(sel, Relabel(chosen, kept), |kept|)
  }

  ghost predicate GroupsOk(g: Groups, size: nat) {
    && |g.sel| == size && Below(g.labels, g.n)
    && |g.labels| == |Selected(g.sel, g.sel)|
    && forall i :: 0 <= i < g.n ==> i in g.labels
  }

  lemma {:induction false} KeptDistinct(grp: seq<nat>, n: nat)
    ensures Distinct(Kept(grp, n)) && forall i :: 0 <= i < |Kept(grp, n)| ==> Kept(grp, n)[i] < n
  {
    if n == 0 {
    } else {
      KeptDistinct(grp, n - 1);
    }
  }

  /** Dense labels: every label below the group count, and every group non-empty. */
  lemma BuildMeaning(grp: seq<nat>, sel: seq<bool>)
    requires |grp| == |sel|
    ensures GroupsOk(Build(grp, sel), |grp|)
    ensures Build(grp, sel).n == 0 <==> forall i :: 0 <= i < |sel| ==> !sel[i]
  {
    var chosen := Selected(grp, sel);
    var kept := Kept(chosen, Span(chosen));
    var g := Build(grp, sel);
    SelectedSameLength(grp, sel, sel);
    KeptDistinct(chosen, Span(chosen));
    forall i | 0 <= i < g.n ensures i in g.labels {
      var group := kept[i];
      assert group in kept;
      var k :| 0 <= k < |chosen| && chosen[k] == group;
      assert g.labels[k] == i;
    }
    NothingSelected(grp, sel);
    if |chosen| > 0 {
      assert chosen[0] in kept;
    }
    if g.n > 0 {
      assert kept[0] in kept;
    }
  }

  lemma {:induction false} NothingSelected<T>(xs: seq<T>, flags: seq<bool>)
    requires |xs| == |flags|
    ensures |Selected(xs, flags)| == 0 <==> forall i :: 0 <= i < |flags| ==> !flags[i]
  {
    if |xs| == 0 {
    } else {
      NothingSelected(xs[..|xs| - 1], flags[..|xs| - 1]);
    }
  }

  // ---------------------------------------------------------------- sums per group

  /** Weighted `bincount`: values added up per label. */
  function GroupSums(values: seq<real>, labels: seq<nat>, n: nat): (r: seq<real>)
    requires |values| == |labels| && Below(labels, n)
    ensures |r| == n
  {
    if |values| == 0 then seq(n, _ => 0.0)
    else
      var k := |values| - 1;
      var front := GroupSums(values[..k], labels[..k], n);
      front[labels[k] := front[labels[k]] + values[k]]
  }

  function AsReals(counts: seq<nat>): (r: seq<real>)
    ensures |r| == |counts| && forall i :: 0 <= i < |r| ==> r[i] == counts[i] as real
  {
    seq(|counts|, i requires 0 <= i < |counts| => counts[i] as real)
  }

  /** What `mask` keeps of the selected entries. */
  function Masked<T>(xs: seq<T>, sel: seq<bool>, mask: seq<bool>): seq<T>
    requires |mask| == |sel| && |xs| == |Selected(mask, sel)|
  {
    Selected(xs, Selected(mask, sel))
  }

  lemma MaskedSizes(g: Groups, values: seq<real>, mask: seq<bool>)
    requires GroupsOk(g, |values|) && |mask| == |values|
    ensures |Selected(values, g.sel)| == |Selected(mask, g.sel)| == |g.labels|
    ensures |Masked(Selected(values, g.sel), g.sel, mask)| == |Masked(g.labels, g.sel, mask)|
    ensures Below(Masked(g.labels, g.sel, mask), g.n)
  {
    SelectedSameLength(values, g.sel, g.sel);
    SelectedSameLength(mask, g.sel, g.sel);
    SelectedSameLength(Selected(values, g.sel), g.labels, Selected(mask, g.sel));
    var labels := Masked(g.labels, g.sel, mask);
    forall k | 0 <= k < |labels| ensures labels[k] < g.n {
      assert labels[k] in g.labels;
    }
  }

  /** Per-group sums of the selected positions, further restricted by `mask`. */
  function SumsOf(g: Groups, values: seq<real>, mask: seq<bool>): (r: seq<real>)
    requires GroupsOk(g, |values|) && |mask| == |values|
    ensures |r| == g.n
  {
    MaskedSizes(g, values, mask);
    GroupSums(Masked(Selected(values, g.sel), g.sel, mask), Masked(g.labels, g.sel, mask), g.n)
  }

  /** Per-group counts of the same positions. */
  function CountsOf(g: Groups, values: seq<real>, mask: seq<bool>): (r: seq<nat>)
    requires GroupsOk(g, |values|) && |mask| == |values|
    ensures |r| == g.n
  {
    MaskedSizes(g, values, mask);
    Bincount(Masked(g.labels, g.sel, mask), g.n)
  }

  lemma {:induction false} GroupSumsConserve(values: seq<real>, labels: seq<nat>, n: nat)
    requires |values| == |labels| && Below(labels, n)
    ensures Sum(GroupSums(values, labels, n)) == Sum(values)
  {
    if |values| == 0 {
      SumZero(GroupSums(values, labels, n));
    } else {
      var k := |values| - 1;
      GroupSumsConserve(values[..k], labels[..k], n);
      var front := GroupSums(values[..k], labels[..k], n);
      SumUpdate(front, labels[k], front[labels[k]] + values[k]);
    }
  }

  lemma {:induction false} CountsConserve(labels: seq<nat>, n: nat)
    requires Below(labels, n)
    ensures Sum(AsReals(Bincount(labels, n))) == |labels| as real
  {
    if |labels| == 0 {
      SumZero(AsReals(Bincount(labels, n)));
    } else {
      var k := |labels| - 1;
      CountsConserve(labels[..k], n);
      var front := Bincount(labels[..k], n);
      assert AsReals(Bincount(labels, n)) == AsReals(front)[labels[k] := front[labels[k]] as real + 1.0];
      SumUpdate(AsReals(front), labels[k], front[labels[k]] as real + 1.0);
    }
  }

  /** The flags that select and keep a position. */
  function Both(a: seq<bool>, b: seq<bool>): (r: seq<bool>)
    requires |a| == |b|
    ensures |r| == |a| && forall i :: 0 <= i < |r| ==> r[i] == (a[i] && b[i])
  {
    seq(|a|, i requires 0 <= i < |a| => a[i] && b[i])
  }

  lemma {:induction false} SelectTwice<T>(xs: seq<T>, sel: seq<bool>, mask: seq<bool>)
    requires |xs| == |sel| == |mask|
    ensures |Selected(xs, sel)| == |Selected(mask, sel)|
    ensures Selected(Selected(xs, sel), Selected(mask, sel)) == Selected(xs, Both(sel, mask))
  {
    SelectedSameLength(xs, mask, sel);
    if |xs| == 0 {
    } else {
      var n := |xs| - 1;
      SelectTwice(xs[..n], sel[..n], mask[..n]);
      assert Both(sel, mask)[..n] == Both(sel[..n], mask[..n]);
      if sel[n] {
        SelectedSnoc(Selected(xs[..n], sel[..n]), Selected(mask[..n], sel[..n]), xs[n], mask[n]);
      } else {
        assert Selected(xs[..n], sel[..n]) + [] == Selected(xs[..n], sel[..n]);
        assert Selected(mask[..n], sel[..n]) + [] == Selected(mask[..n], sel[..n]);
      }
    }
  }

  lemma SelectedSnoc<T>(xs: seq<T>, flags: seq<bool>, x: T, flag: bool)
    requires |xs| == |flags|
    ensures Selected(xs + [x], flags + [flag]) == Selected(xs, flags) + if flag then [x] else []
  {
    assert (xs + [x])[..|xs|] == xs && (flags + [flag])[..|flags|] == flags;
  }

  /** Grouping loses nothing: group sums add up to the selected and kept values, group counts to their
      number. */
  lemma GroupingConserves(g: Groups, values: seq<real>, mask: seq<bool>)
    requires GroupsOk(g, |values|) && |mask| == |values|
    ensures Sum(SumsOf(g, values, mask)) == Sum(Selected(values, Both(g.sel, mask)))
    ensures Sum(AsReals(CountsOf(g, values, mask))) == |Selected(values, Both(g.sel, mask))| as real
  {
    MaskedSizes(g, values, mask);
    SelectTwice(values, g.sel, mask);
    GroupSumsConserve(Masked(Selected(values, g.sel), g.sel, mask), Masked(g.labels, g.sel, mask), g.n);
    CountsConserve(Masked(g.labels, g.sel, mask), g.n);
  }

  // ---------------------------------------------------------------- which values a group gets

  /** Where a label occurs. */
  function Where(labels: seq<nat>, g: nat): (r: seq<bool>)
    ensures |r| == |labels| && forall k :: 0 <= k < |r| ==> r[k] == (labels[k] == g)
  {
    seq(|labels|, k requires 0 <= k < |labels| => labels[k] == g)
  }

  /** Every label's sum is the sum of its own values. */
  lemma {:induction false} GroupSumIs(values: seq<real>, labels: seq<nat>, n: nat, g: nat)
    requires |values| == |labels| && Below(labels, n) && g < n
    ensures GroupSums(values, labels, n)[g] == Sum(Selected(values, Where(labels, g)))
  {
    if |values| == 0 {
    } else {
      var k := |values| - 1;
      GroupSumIs(values[..k], labels[..k], n, g);
      assert Where(labels, g)[..k] == Where(labels[..k], g);
      var front := Selected(values[..k], Where(labels[..k], g));
      if labels[k] == g {
        SumSnoc(front, values[k]);
      } else {
        assert front + [] == front;
      }
    }
  }

  lemma {:induction false} GroupCountIs<T>(values: seq<T>, labels: seq<nat>, n: nat, g: nat)
    requires |values| == |labels| && Below(labels, n) && g < n
    ensures Bincount(labels, n)[g] == |Selected(values, Where(labels, g))|
  {
    if |values| == 0 {
    } else {
      var k := |values| - 1;
      GroupCountIs(values[..k], labels[..k], n, g);
      assert Where(labels, g)[..k] == Where(labels[..k], g);
    }
  }

  lemma {:induction false} SelectWhere(grp: seq<nat>, flags: seq<bool>, g: nat)
    requires |grp| == |flags|
    ensures Selected(Where(grp, g), flags) == Where(Selected(grp, flags), g)
  {
    if |grp| == 0 {
    } else {
      var n := |grp| - 1;
      SelectWhere(grp[..n], flags[..n], g);
      assert Where(grp, g)[..n] == Where(grp[..n], g);
    }
  }

  /** Relabelled entries of a selection are in group `i` exactly when they were in the `i`th kept group. */
  lemma RelabelWhere(grp: seq<nat>, kept: seq<nat>, i: nat)
    requires Distinct(kept) && i < |kept| && forall k :: 0 <= k < |grp| ==> grp[k] in kept
    ensures Where(Relabel(grp, kept), i) == Where(grp, kept[i])
  {
  }

  lemma {:induction false} SelectRelabel(grp: seq<nat>, kept: seq<nat>, flags: seq<bool>)
    requires |grp| == |flags| && forall k :: 0 <= k < |grp| ==> grp[k] in kept
    ensures forall k :: 0 <= k < |Selected(grp, flags)| ==> Selected(grp, flags)[k] in kept
    ensures Selected(Relabel(grp, kept), flags) == Relabel(Selected(grp, flags), kept)
  {
    forall k | 0 <= k < |Selected(grp, flags)| ensures Selected(grp, flags)[k] in kept {
      var x := Selected(grp, flags)[k];
      assert x in grp;
    }
    if |grp| == 0 {
    } else {
      var n := |grp| - 1;
      SelectRelabel(grp[..n], kept, flags[..n]);
      assert Relabel(grp, kept)[..n] == Relabel(grp[..n], kept);
    }
  }

  /** The group that gets the `i`th dense label: the selection's groups in ascending order. */
  function GroupOf(grp: seq<nat>, sel: seq<bool>, i: nat): nat
    requires |grp| == |sel| && i < Build(grp, sel).n
  {
    Kept(Selected(grp, sel), Span(Selected(grp, sel)))[i]
  }

  /** Dense labels follow the order of the groups. */
  lemma {:induction false} KeptAscends(grp: seq<nat>, n: nat, i: nat, j: nat)
    requires i < j < |Kept(grp, n)|
    ensures Kept(grp, n)[i] < Kept(grp, n)[j] < n
  {
    KeptDistinct(grp, n);
    if j < |Kept(grp, n - 1)| {
      KeptAscends(grp, n - 1, i, j);
    } else {
      KeptDistinct(grp, n - 1);
    }
  }

  /** Group `i` sums and counts exactly the positions of its own group that are selected and kept by the mask. */
  lemma SumsOfMeaning(grp: seq<nat>, sel: seq<bool>, values: seq<real>, mask: seq<bool>, i: nat)
    requires |grp| == |sel| == |values| == |mask| && i < Build(grp, sel).n
    ensures GroupsOk(Build(grp, sel), |values|)
    ensures
      var own := Selected(values, Both(Both(sel, mask), Where(grp, GroupOf(grp, sel, i))));
      && SumsOf(Build(grp, sel), values, mask)[i] == Sum(own)
      && CountsOf(Build(grp, sel), values, mask)[i] == |own|
  {
    BuildMeaning(grp, sel);
    var g, both := Build(grp, sel), Both(sel, mask);
    var chosen := Selected(grp, sel);
    var kept := Kept(chosen, Span(chosen));
    KeptDistinct(chosen, Span(chosen));
    MaskedSizes(g, values, mask);
    SelectTwice(values, sel, mask);
    SelectTwice(grp, sel, mask);
    SelectRelabel(chosen, kept, Selected(mask, sel));
    RelabelWhere(Selected(grp, both), kept, i);
    SelectWhere(grp, both, kept[i]);
    SelectTwice(values, both, Where(grp, kept[i]));
    hide Selected, Kept, GroupSums, Bincount, Sum, Span, Distinct;
    var xs, labels := Masked(Selected(values, sel), sel, mask), Masked(g.labels, sel, mask);
    assert xs == Selected(values, both) && labels == Relabel(Selected(grp, both), kept);
    GroupSumIs(xs, labels, g.n, i);
    GroupCountIs(xs, labels, g.n, i);
  }

  // ---------------------------------------------------------------- replicates

  /** A ratio, undefined for an empty denominator. */
  function Ratio(num: real, den: real): Option<real> {
    if den == 0.0 then None else Some(num / den)
  }

  /** It is the number that gives the numerator back, and none exactly for an empty denominator. */
  lemma RatioMeaning(num: real, den: real)
    ensures Ratio(num, den) == None <==> den == 0.0
    ensures Ratio(num, den).Some? ==> Ratio(num, den).value * den == num
  {
    if den != 0.0 {
      assert (num / den) * den == num;
    }
  }

  /** A bootstrap replicate from the resampling matrix. */
  function Replicate(s: seq<real>, c: seq<nat>, mult: seq<nat>): Option<real>
    requires |s| == |c| == |mult|
  {
    Ratio(Product(mult, s), Product(mult, AsReals(c)))
  }

  /** The same replicate, summing over the resampled index list. */
  function ReplicateByIndex(s: seq<real>, c: seq<nat>, idx: seq<nat>): Option<real>
    requires |s| == |c| && Below(idx, |s|)
  {
    Ratio(DrawnSum(s, idx), DrawnSum(AsReals(c), idx))
  }

  lemma {:induction false} DrawnPositive(c: seq<nat>, idx: seq<nat>)
    requires Below(idx, |c|) && |idx| > 0 && forall i :: 0 <= i < |c| ==> c[i] > 0
    ensures DrawnSum(AsReals(c), idx) > 0.0
  {
    if |idx| == 1 {
    } else {
      DrawnPositive(c, idx[..|idx| - 1]);
    }
  }

  function AllTrue(n: nat): (r: seq<bool>)
    ensures |r| == n && forall i :: 0 <= i < n ==> r[i]
  {
    seq(n, _ => true)
  }

  lemma {:induction false} SelectAll<T>(xs: seq<T>, flags: seq<bool>)
    requires |xs| == |flags| && forall i :: 0 <= i < |flags| ==> flags[i]
    ensures Selected(xs, flags) == xs
  {
    if |xs| == 0 {
    } else {
      SelectAll(xs[..|xs| - 1], flags[..|xs| - 1]);
    }
  }

  lemma {:induction false} SelectedFlags(flags: seq<bool>, sel: seq<bool>)
    requires |flags| == |sel| && forall i :: 0 <= i < |flags| ==> flags[i]
    ensures forall k :: 0 <= k < |Selected(flags, sel)| ==> Selected(flags, sel)[k]
  {
    if |flags| == 0 {
    } else {
      SelectedFlags(flags[..|flags| - 1], sel[..|flags| - 1]);
    }
  }

  /** Without a mask every group of the selection counts at least one position. */
  lemma UnmaskedCounts(g: Groups, values: seq<real>)
    requires GroupsOk(g, |values|)
    ensures forall i :: 0 <= i < g.n ==> CountsOf(g, values, AllTrue(|values|))[i] > 0
  {
    var mask := AllTrue(|values|);
    MaskedSizes(g, values, mask);
    SelectedFlags(mask, g.sel);
    SelectAll(g.labels, Selected(mask, g.sel));
    forall i | 0 <= i < g.n ensures CountsOf(g, values, mask)[i] > 0 {
      assert i in g.labels;
      BincountMeaning(g.labels, g.n, i);
    }
  }

  /** The group bootstrap. For any grouping, any mask and any resampled index list, the matrix replicate is
      the index-list replicate; without a mask and with at least one drawn group it is defined. */
  lemma ReplicatesAgree(grp: seq<nat>, sel: seq<bool>, values: seq<real>, mask: seq<bool>, idx: seq<nat>)
    requires |grp| == |sel| == |values| == |mask| && Below(idx, Build(grp, sel).n)
    ensures GroupsOk(Build(grp, sel), |values|)
    ensures
      var g := Build(grp, sel);
      var s, c := SumsOf(g, values, mask), CountsOf(g, values, mask);
      && Replicate(s, c, Bincount(idx, g.n)) == ReplicateByIndex(s, c, idx)
      && (|idx| > 0 && mask == AllTrue(|values|) ==> Replicate(s, c, Bincount(idx, g.n)).Some?)
  {
    BuildMeaning(grp, sel);
    var g := Build(grp, sel);
    var s, c := SumsOf(g, values, mask), CountsOf(g, values, mask);
    ProductIsDrawnSum(s, idx);
    ProductIsDrawnSum(AsReals(c), idx);
    if |idx| > 0 && mask == AllTrue(|values|) {
      UnmaskedCounts(g, values);
      DrawnPositive(c, idx);
    }
  }
}
