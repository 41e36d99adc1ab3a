/** Repeated executions of two arms at one position (scripts/fidelity/analyze_campaign.py): every row is
    put on one shared partition, each arm is averaged, and the divergence of the averages (D) is compared
    with the mean divergence of the cross-arm pairs (X). */
module Mixtures {
  import opened Options
  import opened RealMath
  import opened Sums
  import opened CoarseKl
  import opened KlTheorems
  import opened NumpyKl

  /** One execution's row: top-K ids and scores, and the actual token's score. */
  datatype Execution = Execution(ids: seq<int>, lps: seq<Entry>, actual: Entry)

  ghost predicate Rectangular(rows: seq<Execution>) {
    |rows| > 0 && forall j :: 0 <= j < |rows| ==> |rows[j].ids| == |rows[j].lps| == |rows[0].ids|
  }

  // ---------------------------------------------------------------- the shared partition

  /** Column `i` of the first row is a token present in every row. */
  predicate InAll(rows: seq<Execution>, i: nat)
    requires |rows| > 0 && i < |rows[0].ids|
  {
    rows[0].ids[i] >= 0 && forall j :: 0 < j < |rows| ==> rows[0].ids[i] in rows[j].ids
  }

  predicate UsesActual(rows: seq<Execution>, token: int)
    requires |rows| > 0
  {
    && token >= 0
    && !(exists i :: 0 <= i < |rows[0].ids| && rows[0].ids[i] == token && InAll(rows, i))
    && forall j :: 0 <= j < |rows| ==> rows[j].actual.Known?
  }

  /** Row `j`'s logprob of the shared token in column `i`, or a masked zero. */
  function SharedLogprob(rows: seq<Execution>, j: nat, i: nat): Logprob
    requires |rows| > 0 && j < |rows| && i < |rows[0].ids|
    requires |rows[j].ids| == |rows[j].lps| == |rows[0].ids|
  {
    if !InAll(rows, i) then NegInf
    else if j == 0 then AsLogprob(rows[0].lps[i])
    else AsLogprob(rows[j].lps[FirstIndex(rows[j].ids, rows[0].ids[i])])
  }

  /** Row `j`'s known cells: the shared columns, then the actual token's column. */
  function KnownOf(rows: seq<Execution>, token: int, j: nat): (r: seq<Logprob>)
    requires |rows| > 0 && j < |rows| && |rows[j].ids| == |rows[j].lps| == |rows[0].ids|
    ensures |r| == |rows[0].ids| + 1
  {
    seq(|rows[0].ids|, i requires 0 <= i < |rows[0].ids| => SharedLogprob(rows, j, i))
    + [if UsesActual(rows, token) then AsLogprob(rows[j].actual) else NegInf]
  }

  /** Row `j` is usable and its known mass does not exceed one beyond the tolerance. */
  ghost predicate Usable(m: Math, rows: seq<Execution>, token: int, j: nat, tol: real)
    requires Rectangular(rows) && j < |rows|
  {
    !BadRow(rows[j].ids, rows[j].lps) && LogRestOf(m, KnownOf(rows, token, j), tol).Rest?
  }

  /** A partition row: known cells plus their rest. */
  ghost predicate PartitionRow(m: Math, known: seq<Logprob>, logs: seq<Logprob>, tol: real) {
    && LogRestOf(m, known, tol).Rest?
    && logs == known + [LogRestOf(m, known, tol).lp]
  }

  lemma UsableIs(m: Math, rows: seq<Execution>, token: int, j: nat, tol: real)
    requires Rectangular(rows) && j < |rows|
    ensures Usable(m, rows, token, j, tol)
       <==> !BadRow(rows[j].ids, rows[j].lps) && !LogRestOf(m, KnownOf(rows, token, j), tol).Inconsistent?
  {
  }

  /** Logprobs of all rows on the shared partition; the position is valid when every row is usable. */
  method PartitionLogprobs(m: Math, rows: seq<Execution>, token: int, tol: real)
    returns (logs: seq<seq<Logprob>>, valid: bool)
    requires Rectangular(rows) && tol >= 0.0
    ensures |logs| == |rows|
    ensures valid <==> forall j :: 0 <= j < |rows| ==> Usable(m, rows, token, j, tol)
    ensures valid ==> forall j :: 0 <= j < |rows| ==> PartitionRow(m, KnownOf(rows, token, j), logs[j], tol)
  {
    hide Usable, PartitionRow, LogRestOf, BadRow;
    logs, valid := [], true;
    for j := 0 to |rows|
      invariant |logs| == j
      invariant valid <==> forall k :: 0 <= k < j ==> Usable(m, rows, token, k, tol)
      invariant valid ==> forall k :: 0 <= k < j ==> PartitionRow(m, KnownOf(rows, token, k), logs[k], tol)
    {
      var row, over := RowLogs(m, KnownOf(rows, token, j), tol);
      var usable := !BadRow(rows[j].ids, rows[j].lps) && !over;
      UsableIs(m, rows, token, j, tol);
      valid := valid && usable;
      logs := logs + [row];
    }
  }

  method RowLogs(m: Math, known: seq<Logprob>, tol: real) returns (row: seq<Logprob>, over: bool)
    requires tol >= 0.0
    ensures over <==> LogRestOf(m, known, tol).Inconsistent?
    ensures !over ==> PartitionRow(m, known, row, tol)
  {
    var rest := LogRestRow(m, known, tol);
    row, over := known + [rest.logRest], rest.over;
  }

  // ---------------------------------------------------------------- averages

  function Column(rows: seq<seq<Logprob>>, c: nat): (r: seq<Logprob>)
    requires forall j :: 0 <= j < |rows| ==> c < |rows[j]|
    ensures |r| == |rows| && forall j :: 0 <= j < |r| ==> r[j] == rows[j][c]
  {
    seq(|rows|, j requires 0 <= j < |rows| => rows[j][c])
  }

  /** `exp(L - shift)`, entry by entry. */
  function Shifted(m: Math, lps: seq<Logprob>, shift: real): (r: seq<real>)
    ensures |r| == |lps|
    ensures forall j :: 0 <= j < |r| ==> r[j] == if lps[j].Fin? then m.exp(lps[j].v - shift) else 0.0
  {
    seq(|lps|, j requires 0 <= j < |lps| => if lps[j].Fin? then m.exp(lps[j].v - shift) else 0.0)
  }

  /** Log of the mean probability, computed with the largest logprob factored out. */
  function LogMeanExp(m: Math, lps: seq<Logprob>): Logprob
    requires |lps| > 0
  {
    var top := lps[ArgMax(lps)];
    var safe := if top.Fin? then top.v else 0.0;
    var mean := Sum(Shifted(m, lps, safe)) / |lps| as real;
    if mean <= 0.0 then NegInf else Fin(safe + m.ln(mean))
  }

  function Mixture(m: Math, rows: seq<seq<Logprob>>): (r: seq<Logprob>)
    requires |rows| > 0 && forall j :: 0 <= j < |rows| ==> |rows[j]| == |rows[0]|
    ensures |r| == |rows[0]|
    ensures forall c :: 0 <= c < |r| ==> r[c] == LogMeanExp(m, Column(rows, c))
  {
    seq(|rows[0]|, c requires 0 <= c < |rows[0]| => LogMeanExp(m, Column(rows, c)))
  }

  lemma ShiftOne(m: Math, lp: Logprob, shift: real)
    requires Lawful(m)
    ensures (if lp.Fin? then m.exp(lp.v - shift) else 0.0) == m.exp(-shift) * Prob(m, lp)
  {
    if lp.Fin? {
      assert ExpOfSum(m, -shift, lp.v);
      assert lp.v - shift == -shift + lp.v;
    }
  }

  lemma {:induction false} ShiftedSum(m: Math, lps: seq<Logprob>, shift: real)
    requires Lawful(m)
    ensures Multiple(Sum(Shifted(m, lps, shift)), m.exp(-shift), Sum(Probs(m, lps)))
  {
    if |lps| == 0 {
    } else {
      var n := |lps| - 1;
      ShiftedSum(m, lps[..n], shift);
      assert Shifted(m, lps, shift)[..n] == Shifted(m, lps[..n], shift);
      assert Probs(m, lps)[..n] == Probs(m, lps[..n]);
      ShiftOne(m, lps[n], shift);
      Distribute(m.exp(-shift), Sum(Probs(m, lps[..n])), Prob(m, lps[n]));
    }
  }

  lemma ProbsNonNegative(m: Math, lps: seq<Logprob>)
    requires Lawful(m)
    ensures Sum(Probs(m, lps)) >= 0.0
    ensures Sum(Probs(m, lps)) == 0.0 <==> forall j :: 0 <= j < |lps| ==> lps[j].NegInf?
  {
    var ps := Probs(m, lps);
    forall j | 0 <= j < |lps| ensures ps[j] >= 0.0 && (ps[j] == 0.0 <==> lps[j].NegInf?) {
      ProbBounds(m, lps[j]);
    }
    SumNonNegative(ps);
    if forall j :: 0 <= j < |lps| ==> lps[j].NegInf? {
      SumZero(ps);
    }
  }

  /** The stable form is the log of the mean probability, for every column. */
  lemma LogMeanExpMeaning(m: Math, lps: seq<Logprob>)
    requires Lawful(m) && |lps| > 0
    ensures LogMeanExp(m, lps) == LogOf(m, Sum(Probs(m, lps)) / |lps| as real)
  {
    var top := lps[ArgMax(lps)];
    var safe := if top.Fin? then top.v else 0.0;
    ShiftedSum(m, lps, safe);
    ProbsNonNegative(m, lps);
    Unshift(m, Sum(Shifted(m, lps, safe)), safe, Sum(Probs(m, lps)), |lps| as real);
  }

  lemma Unshift(m: Math, shifted: real, safe: real, total: real, n: real)
    requires Lawful(m) && total >= 0.0 && n > 0.0 && Multiple(shifted, m.exp(-safe), total)
    ensures (if shifted / n <= 0.0 then NegInf else Fin(safe + m.ln(shifted / n))) == LogOf(m, total / n)
  {
    ExpPositive(m, -safe);
    var a, mean, r := m.exp(-safe), shifted / n, total / n;
    FactorOut(a, total, n);
    assert mean == a * r;
    if total > 0.0 {
      LnOfProduct(m, a, r);
      assert LnInvertsExp(m, -safe);
      assert m.ln(mean) == -safe + m.ln(r);
      assert mean > 0.0 && r > 0.0;
    } else {
      assert mean == 0.0 && r == 0.0;
    }
  }

  lemma FactorOut(a: real, x: real, n: real)
    requires a > 0.0 && x >= 0.0 && n > 0.0
    ensures a * x / n == a * (x / n)
    ensures x > 0.0 <==> x / n > 0.0
    ensures x > 0.0 <==> a * x / n > 0.0
  {
    var r := x / n;
    assert r * n == x;
    assert a * r * n == a * x;
    if x > 0.0 {
      assert r > 0.0;
      assert a * r > 0.0;
    }
  }

  // ---------------------------------------------------------------- divergences of rows

  function Zip(p: seq<Logprob>, q: seq<Logprob>): (r: seq<Cell>)
    requires |p| == |q|
    ensures |r| == |p|
    ensures forall c :: 0 <= c < |r| ==> r[c] == Cell(p[c], q[c])
  {
    seq(|p|, c requires 0 <= c < |p| => Cell(p[c], q[c]))
  }

  /** Divergence of two rows on the same partition. */
  function KlRows(m: Math, p: seq<Logprob>, q: seq<Logprob>): real
    requires |p| == |q|
  {
    Sum(Terms(m, Zip(p, q)))
  }

  ghost predicate SameWidth(rows: seq<seq<Logprob>>, width: nat) {
    |rows| > 0 && forall j :: 0 <= j < |rows| ==> |rows[j]| == width
  }

  /** One reference row against every candidate row. */
  function Against(m: Math, p: seq<Logprob>, cands: seq<seq<Logprob>>): (r: seq<real>)
    requires forall j :: 0 <= j < |cands| ==> |cands[j]| == |p|
    ensures |r| == |cands|
    ensures forall j :: 0 <= j < |r| ==> r[j] == KlRows(m, p, cands[j])
  {
    seq(|cands|, j requires 0 <= j < |cands| => KlRows(m, p, cands[j]))
  }

  /** All cross-arm pairs, reference row by reference row. */
  function CrossPairs(m: Math, refs: seq<seq<Logprob>>, cands: seq<seq<Logprob>>): (r: seq<real>)
    requires forall i, j :: 0 <= i < |refs| && 0 <= j < |cands| ==> |refs[i]| == |cands[j]|
    ensures |r| == |refs| * |cands|
  {
    if |refs| == 0 then []
    else CrossPairs(m, refs[..|refs| - 1], cands) + Against(m, refs[|refs| - 1], cands)
  }

  /** D: divergence of the two averages. */
  function AveragesDivergence(m: Math, refs: seq<seq<Logprob>>, cands: seq<seq<Logprob>>): real
    requires exists width: nat :: SameWidth(refs, width) && SameWidth(cands, width)
  {
    KlRows(m, Mixture(m, refs), Mixture(m, cands))
  }

  /** X: mean divergence of the cross-arm pairs. */
  function CrossDivergence(m: Math, refs: seq<seq<Logprob>>, cands: seq<seq<Logprob>>): real
    requires exists width: nat :: SameWidth(refs, width) && SameWidth(cands, width)
  {
    var pairs := CrossPairs(m, refs, cands);
    Sum(pairs) / |pairs| as real
  }

  /** One reference execution's divergences, added up. */
  function RowTotals(m: Math, refs: seq<seq<Logprob>>, cands: seq<seq<Logprob>>): (r: seq<real>)
    requires forall i, j :: 0 <= i < |refs| && 0 <= j < |cands| ==> |refs[i]| == |cands[j]|
    ensures |r| == |refs| && forall i :: 0 <= i < |r| ==> r[i] == Sum(Against(m, refs[i], cands))
  {
    seq(|refs|, i requires 0 <= i < |refs| => Sum(Against(m, refs[i], cands)))
  }

  lemma {:induction false} PairsAddUp(m: Math, refs: seq<seq<Logprob>>, cands: seq<seq<Logprob>>)
    requires forall i, j :: 0 <= i < |refs| && 0 <= j < |cands| ==> |refs[i]| == |cands[j]|
    ensures Sum(CrossPairs(m, refs, cands)) == Sum(RowTotals(m, refs, cands))
  {
    if |refs| == 0 {
    } else {
      var n := |refs| - 1;
      PairsAddUp(m, refs[..n], cands);
      CrossPairsSnoc(m, refs, cands);
      assert RowTotals(m, refs, cands)[..n] == RowTotals(m, refs[..n], cands);
      SumLast(RowTotals(m, refs, cands));
    }
  }

  /** X is the mean: with all pairs' divergences added up it is their number times X. */
  lemma CrossIsMean(m: Math, refs: seq<seq<Logprob>>, cands: seq<seq<Logprob>>, width: nat)
    requires SameWidth(refs, width) && SameWidth(cands, width)
    ensures CrossDivergence(m, refs, cands) * (|refs| * |cands|) as real == Sum(RowTotals(m, refs, cands))
  {
    hide RowTotals, CrossPairs, Sum;
    PairsAddUp(m, refs, cands);
    assert |refs| * |cands| > 0;
    DivideBack(Sum(CrossPairs(m, refs, cands)), (|refs| * |cands|) as real);
  }

  lemma DivideBack(x: real, n: real)
    requires n > 0.0
    ensures x / n * n == x
  {
  }

  /** So X is no larger than the largest pair divergence and no smaller than the smallest. */
  lemma {:induction false} RowsWithin(m: Math, refs: seq<seq<Logprob>>, cands: seq<seq<Logprob>>, lo: real, hi: real)
    requires forall i, j :: 0 <= i < |refs| && 0 <= j < |cands| ==>
               |refs[i]| == |cands[j]| && lo <= KlRows(m, refs[i], cands[j]) <= hi
    ensures forall k :: 0 <= k < |CrossPairs(m, refs, cands)| ==> lo <= CrossPairs(m, refs, cands)[k] <= hi
  {
    hide KlRows;
    if |refs| == 0 {
    } else {
      RowsWithin(m, refs[..|refs| - 1], cands, lo, hi);
    }
  }

  lemma CrossWithin(m: Math, refs: seq<seq<Logprob>>, cands: seq<seq<Logprob>>, width: nat, lo: real, hi: real)
    requires SameWidth(refs, width) && SameWidth(cands, width)
    requires forall i, j :: 0 <= i < |refs| && 0 <= j < |cands| ==> lo <= KlRows(m, refs[i], cands[j]) <= hi
    ensures lo <= CrossDivergence(m, refs, cands) <= hi
  {
    RowsWithin(m, refs, cands, lo, hi);
    assert |refs| * |cands| > 0;
    hide CrossPairs, KlRows, Sum;
    MeanWithin(CrossPairs(m, refs, cands), lo, hi);
  }

  lemma MeanWithin(xs: seq<real>, lo: real, hi: real)
    requires |xs| > 0 && forall k :: 0 <= k < |xs| ==> lo <= xs[k] <= hi
    ensures lo <= Sum(xs) / |xs| as real <= hi
  {
    SumWithin(xs, lo, hi);
    DivideBack(Sum(xs), |xs| as real);
    MeanOrder(Sum(xs) / |xs| as real, |xs| as real, lo, hi);
  }

  lemma MeanOrder(x: real, n: real, lo: real, hi: real)
    requires n > 0.0 && n * lo <= x * n <= n * hi
    ensures lo <= x <= hi
  {
    assert (x - lo) * n == x * n - n * lo && (hi - x) * n == n * hi - x * n;
    Factor(x - lo, n);
    Factor(hi - x, n);
  }

  lemma Factor(gap: real, n: real)
    requires n > 0.0 && gap * n >= 0.0
    ensures gap >= 0.0
  {
  }

  lemma {:induction false} SumWithin(xs: seq<real>, lo: real, hi: real)
    requires forall k :: 0 <= k < |xs| ==> lo <= xs[k] <= hi
    ensures |xs| as real * lo <= Sum(xs) <= |xs| as real * hi
  {
    if |xs| == 0 {
    } else {
      SumWithin(xs[..|xs| - 1], lo, hi);
      Distribute(lo, (|xs| - 1) as real, 1.0);
      Distribute(hi, (|xs| - 1) as real, 1.0);
    }
  }

  // ---------------------------------------------------------------- weighted sums of rows

  function Dot(w: seq<real>, v: seq<real>): real
    requires |w| == |v|
  {
    if |w| == 0 then 0.0 else Dot(w[..|w| - 1], v[..|v| - 1]) + w[|w| - 1] * v[|v| - 1]
  }

  lemma {:induction false} DotAdd(w: seq<real>, a: seq<real>, b: seq<real>, ab: seq<real>)
    requires |w| == |a| == |b| == |ab| && forall c :: 0 <= c < |w| ==> ab[c] == a[c] + b[c]
    ensures Dot(w, ab) == Dot(w, a) + Dot(w, b)
  {
    if |w| == 0 {
    } else {
      var n := |w| - 1;
      DotAdd(w[..n], a[..n], b[..n], ab[..n]);
      Distribute(w[n], a[n], b[n]);
    }
  }

  lemma {:induction false} DotScale(w: seq<real>, v: seq<real>, nv: seq<real>, n: real)
    requires |w| == |v| && Multiples(nv, n, v)
    ensures Multiple(Dot(w, nv), n, Dot(w, v))
  {
    if |w| == 0 {
    } else {
      var k := |w| - 1;
      DotScale(w[..k], v[..k], nv[..k], n);
      assert Multiple(nv[k], n, v[k]);
      Distribute(n, Dot(w[..k], v[..k]), w[k] * v[k]);
      Commute(w[k], n, v[k]);
    }
  }

  ghost predicate Multiples(xs: seq<real>, n: real, vs: seq<real>) {
    |xs| == |vs| && forall c :: 0 <= c < |xs| ==> Multiple(xs[c], n, vs[c])
  }

  ghost predicate Multiple(x: real, n: real, v: real) {
    x == n * v
  }

  lemma Commute(x: real, y: real, z: real)
    ensures x * (y * z) == y * (x * z)
  {
  }

  lemma {:induction false} DotZero(w: seq<real>, v: seq<real>)
    requires |w| == |v| && forall c :: 0 <= c < |v| ==> v[c] == 0.0
    ensures Dot(w, v) == 0.0
  {
    if |w| == 0 {
    } else {
      DotZero(w[..|w| - 1], v[..|v| - 1]);
    }
  }

  ghost predicate AboveWeighted(t: real, w: real, p: real, r: real, q: real) {
    t >= w * p - r * q
  }

  ghost predicate BelowWeighted(t: real, w: real, p: real, r: real, q: real) {
    t <= w * p - r * q
  }

  lemma {:induction false} DotsBelow(ts: seq<real>, w: seq<real>, p: seq<real>, r: seq<real>, q: seq<real>)
    requires |ts| == |w| == |p| == |r| == |q|
    requires forall c :: 0 <= c < |ts| ==> AboveWeighted(ts[c], w[c], p[c], r[c], q[c])
    ensures Sum(ts) >= Dot(w, p) - Dot(r, q)
  {
    if |ts| == 0 {
    } else {
      var n := |ts| - 1;
      DotsBelow(ts[..n], w[..n], p[..n], r[..n], q[..n]);
      assert AboveWeighted(ts[n], w[n], p[n], r[n], q[n]);
    }
  }

  lemma {:induction false} DotsAbove(ts: seq<real>, w: seq<real>, p: seq<real>, r: seq<real>, q: seq<real>)
    requires |ts| == |w| == |p| == |r| == |q|
    requires forall c :: 0 <= c < |ts| ==> BelowWeighted(ts[c], w[c], p[c], r[c], q[c])
    ensures Sum(ts) <= Dot(w, p) - Dot(r, q)
  {
    if |ts| == 0 {
    } else {
      var n := |ts| - 1;
      DotsAbove(ts[..n], w[..n], p[..n], r[..n], q[..n]);
      assert BelowWeighted(ts[n], w[n], p[n], r[n], q[n]);
    }
  }

  function RowDots(m: Math, w: seq<real>, rows: seq<seq<Logprob>>): (r: seq<real>)
    requires forall j :: 0 <= j < |rows| ==> |rows[j]| == |w|
    ensures |r| == |rows| && forall j :: 0 <= j < |r| ==> r[j] == Dot(w, Probs(m, rows[j]))
  {
    seq(|rows|, j requires 0 <= j < |rows| => Dot(w, Probs(m, rows[j])))
  }

  /** Total probability of each cell over all rows. */
  function ColumnTotals(m: Math, rows: seq<seq<Logprob>>, width: nat): (r: seq<real>)
    requires forall j :: 0 <= j < |rows| ==> |rows[j]| == width
    ensures |r| == width && forall c :: 0 <= c < width ==> r[c] == Sum(Probs(m, Column(rows, c)))
  {
    seq(width, c requires 0 <= c < width => Sum(Probs(m, Column(rows, c))))
  }

  /** Weighing every row and adding up equals weighing the column totals. */
  lemma {:induction false} DotOfTotals(m: Math, w: seq<real>, rows: seq<seq<Logprob>>)
    requires forall j :: 0 <= j < |rows| ==> |rows[j]| == |w|
    ensures Sum(RowDots(m, w, rows)) == Dot(w, ColumnTotals(m, rows, |w|))
  {
    if |rows| == 0 {
      DotZero(w, ColumnTotals(m, rows, |w|));
    } else {
      var n := |rows| - 1;
      DotOfTotals(m, w, rows[..n]);
      assert RowDots(m, w, rows)[..n] == RowDots(m, w, rows[..n]);
      SumLast(RowDots(m, w, rows));
      TotalsSnoc(m, rows, |w|);
      hide Sum, Dot, Probs;
      DotAdd(w, ColumnTotals(m, rows[..n], |w|), Probs(m, rows[n]), ColumnTotals(m, rows, |w|));
    }
  }

  lemma TotalsSnoc(m: Math, rows: seq<seq<Logprob>>, width: nat)
    requires |rows| > 0 && forall j :: 0 <= j < |rows| ==> |rows[j]| == width
    ensures forall c :: 0 <= c < width ==>
              ColumnTotals(m, rows, width)[c] == ColumnTotals(m, rows[..|rows| - 1], width)[c]
                  + Probs(m, rows[|rows| - 1])[c]
  {
    var n := |rows| - 1;
    forall c | 0 <= c < width
      ensures ColumnTotals(m, rows, width)[c] == ColumnTotals(m, rows[..n], width)[c] + Probs(m, rows[n])[c]
    {
      assert Probs(m, Column(rows, c))[..n] == Probs(m, Column(rows[..n], c));
    }
  }

  // ---------------------------------------------------------------- D <= X

  /** No cross-arm pair meets a genuine zero of the candidate under positive reference mass. */
  ghost predicate Unfloored(refs: seq<seq<Logprob>>, cands: seq<seq<Logprob>>, width: nat)
    requires SameWidth(refs, width) && SameWidth(cands, width)
  {
    forall i, j, c :: 0 <= i < |refs| && 0 <= j < |cands| && 0 <= c < width && refs[i][c].Fin? ==> cands[j][c].Fin?
  }

  /** Weights that make the log-sum tangent exact at the averages `p`, `q` of a cell. */
  function Slope(p: real, q: real): real {
    if p > 0.0 && q > 0.0 then p / q else 0.0
  }

  function Weight(m: Math, p: real, q: real): real {
    if p > 0.0 && q > 0.0 then m.ln(p / q) + 1.0 else 0.0
  }

  function Slopes(p: seq<real>, q: seq<real>): (r: seq<real>)
    requires |p| == |q|
    ensures |r| == |p| && forall c :: 0 <= c < |r| ==> r[c] == Slope(p[c], q[c])
  {
    seq(|p|, c requires 0 <= c < |p| => Slope(p[c], q[c]))
  }

  function Weights(m: Math, p: seq<real>, q: seq<real>): (r: seq<real>)
    requires |p| == |q|
    ensures |r| == |p| && forall c :: 0 <= c < |r| ==> r[c] == Weight(m, p[c], q[c])
  {
    seq(|p|, c requires 0 <= c < |p| => Weight(m, p[c], q[c]))
  }

  lemma PositiveRatio(p: real, q: real)
    requires p > 0.0 && q > 0.0
    ensures p / q > 0.0
  {
    var r := p / q;
    assert r * q == p;
  }

  /** One unfloored cell of a pair lies above the tangent at the averages. */
  lemma PairCell(m: Math, c: Cell, p: real, q: real)
    requires Lawful(m) && !Hit(m, c) && p >= 0.0 && q >= 0.0
    requires p == 0.0 ==> c.p.NegInf?
    requires q == 0.0 ==> c.q.NegInf?
    ensures AboveWeighted(TermLp(m, c.p, c.q).0, Weight(m, p, q), Prob(m, c.p), Slope(p, q), Prob(m, c.q))
  {
    if p > 0.0 && q > 0.0 {
      PositiveRatio(p, q);
      TermTangent(m, c, p / q);
    } else {
      ProbBounds(m, c.p);
      ProbBounds(m, c.q);
    }
  }

  /** At the averages themselves the tangent is no larger than the weighted masses. */
  lemma AverageCell(m: Math, p: real, q: real)
    requires Lawful(m) && p >= 0.0 && q >= 0.0 && (q == 0.0 ==> p == 0.0)
    ensures BelowWeighted(TermLp(m, LogOf(m, p), LogOf(m, q)).0, Weight(m, p, q), p, Slope(p, q), q)
  {
    if p > 0.0 {
      PositiveRatio(p, q);
      MergedValue(m, Weight(m, p, q) * p - Slope(p, q) * q, p, q);
    }
  }

  lemma PairAboveDots(m: Math, p: seq<Logprob>, q: seq<Logprob>, pm: seq<real>, qm: seq<real>)
    requires Lawful(m) && |p| == |q| == |pm| == |qm|
    requires forall c :: 0 <= c < |p| ==> CellBetween(m, Cell(p[c], q[c]), pm[c], qm[c])
    ensures KlRows(m, p, q) >= Dot(Weights(m, pm, qm), Probs(m, p)) - Dot(Slopes(pm, qm), Probs(m, q))
  {
    var ts, w, r := Terms(m, Zip(p, q)), Weights(m, pm, qm), Slopes(pm, qm);
    forall c | 0 <= c < |p| ensures AboveWeighted(ts[c], w[c], Probs(m, p)[c], r[c], Probs(m, q)[c]) {
      assert CellBetween(m, Cell(p[c], q[c]), pm[c], qm[c]);
      PairCell(m, Zip(p, q)[c], pm[c], qm[c]);
    }
    DotsBelow(ts, w, Probs(m, p), r, Probs(m, q));
  }

  /** The side conditions of `PairCell`, by name. */
  ghost predicate CellBetween(m: Math, c: Cell, p: real, q: real) {
    !Hit(m, c) && p >= 0.0 && q >= 0.0 && (p == 0.0 ==> c.p.NegInf?) && (q == 0.0 ==> c.q.NegInf?)
  }

  ghost predicate CrossBound(total: real, k: real, a: real, n: real, b: real) {
    total >= k * a - n * b
  }

  lemma {:induction false} RowAbove(xs: seq<real>, a: real, bs: seq<real>)
    requires |xs| == |bs| && forall j :: 0 <= j < |xs| ==> xs[j] >= a - bs[j]
    ensures CrossBound(Sum(xs), |xs| as real, a, 1.0, Sum(bs))
  {
    if |xs| == 0 {
    } else {
      var n := |xs| - 1;
      RowAbove(xs[..n], a, bs[..n]);
      Distribute(a, n as real, 1.0);
    }
  }

  lemma NoCross(k: real, sb: real)
    ensures CrossBound(0.0, k, 0.0, 0.0, sb)
  {
  }

  lemma CrossStep(c: real, c': real, k: real, sa: real, a: real, n: real, sb: real, total: real, all: real, n': real)
    requires CrossBound(c, k, sa, n, sb) && CrossBound(c', k, a, 1.0, sb)
    requires total == c + c' && all == sa + a && n' == n + 1.0
    ensures CrossBound(total, k, all, n', sb)
  {
    Distribute(k, sa, a);
    Distribute(sb, n, 1.0);
  }

  ghost predicate PairAbove(m: Math, p: seq<Logprob>, q: seq<Logprob>, a: real, b: real) {
    |p| == |q| && KlRows(m, p, q) >= a - b
  }

  ghost predicate AllPairsAbove(m: Math, refs: seq<seq<Logprob>>, cands: seq<seq<Logprob>>, a: seq<real>,
                                b: seq<real>) {
    && |refs| == |a| && |cands| == |b|
    && forall i, j :: 0 <= i < |refs| && 0 <= j < |cands| ==> PairAbove(m, refs[i], cands[j], a[i], b[j])
  }

  lemma AgainstAbove(m: Math, p: seq<Logprob>, cands: seq<seq<Logprob>>, a: real, b: seq<real>)
    requires |cands| == |b| && forall j :: 0 <= j < |cands| ==> |cands[j]| == |p|
    requires forall j :: 0 <= j < |cands| ==> PairAbove(m, p, cands[j], a, b[j])
    ensures CrossBound(Sum(Against(m, p, cands)), |cands| as real, a, 1.0, Sum(b))
  {
    var row := Against(m, p, cands);
    forall j | 0 <= j < |cands| ensures row[j] >= a - b[j] {
      assert PairAbove(m, p, cands[j], a, b[j]);
    }
    RowAbove(row, a, b);
  }

  lemma CrossPairsSnoc(m: Math, refs: seq<seq<Logprob>>, cands: seq<seq<Logprob>>)
    requires forall i, j :: 0 <= i < |refs| && 0 <= j < |cands| ==> |refs[i]| == |cands[j]|
    requires |refs| > 0
    ensures
      var n := |refs| - 1;
      Sum(CrossPairs(m, refs, cands)) == Sum(CrossPairs(m, refs[..n], cands)) + Sum(Against(m, refs[n], cands))
  {
    hide Against;
    var n := |refs| - 1;
    SumConcat(CrossPairs(m, refs[..n], cands), Against(m, refs[n], cands));
  }

  lemma CrossAboveSnoc(m: Math, refs: seq<seq<Logprob>>, cands: seq<seq<Logprob>>, a: seq<real>, b: seq<real>)
    requires |refs| > 0 && forall i, j :: 0 <= i < |refs| && 0 <= j < |cands| ==> |refs[i]| == |cands[j]|
    requires AllPairsAbove(m, refs, cands, a, b)
    requires
      var n := |refs| - 1;
      CrossBound(Sum(CrossPairs(m, refs[..n], cands)), |cands| as real, Sum(a[..n]), n as real, Sum(b))
    ensures CrossBound(Sum(CrossPairs(m, refs, cands)), |cands| as real, Sum(a), |refs| as real, Sum(b))
  {
    var n := |refs| - 1;
    assert Sum(a) == Sum(a[..n]) + a[n];
    hide CrossBound, CrossPairs, Against, Sum, PairAbove;
    AgainstAbove(m, refs[n], cands, a[n], b);
    CrossPairsSnoc(m, refs, cands);
    CrossStep(Sum(CrossPairs(m, refs[..n], cands)), Sum(Against(m, refs[n], cands)), |cands| as real,
              Sum(a[..n]), a[n], n as real, Sum(b), Sum(CrossPairs(m, refs, cands)), Sum(a), |refs| as real);
  }

  lemma {:induction false} CrossAbove(m: Math, refs: seq<seq<Logprob>>, cands: seq<seq<Logprob>>, a: seq<real>,
                                      b: seq<real>)
    requires forall i, j :: 0 <= i < |refs| && 0 <= j < |cands| ==> |refs[i]| == |cands[j]|
    requires AllPairsAbove(m, refs, cands, a, b)
    ensures CrossBound(Sum(CrossPairs(m, refs, cands)), |cands| as real, Sum(a), |refs| as real, Sum(b))
  {
    if |refs| == 0 {
      NoCross(|cands| as real, Sum(b));
    } else {
      hide CrossBound, CrossPairs, Sum, PairAbove;
      CrossAbove(m, refs[..|refs| - 1], cands, a[..|refs| - 1], b);
      CrossAboveSnoc(m, refs, cands, a, b);
    }
  }

  /** Mean probability of each cell. */
  function Means(m: Math, rows: seq<seq<Logprob>>, width: nat): (r: seq<real>)
    requires SameWidth(rows, width)
    ensures |r| == width && forall c :: 0 <= c < width ==> r[c] == Sum(Probs(m, Column(rows, c))) / |rows| as real
  {
    seq(width, c requires 0 <= c < width => Sum(Probs(m, Column(rows, c))) / |rows| as real)
  }

  /** A cell's mean is positive exactly when some row gives it positive probability. */
  lemma MeanCell(m: Math, rows: seq<seq<Logprob>>, width: nat, c: nat)
    requires Lawful(m) && SameWidth(rows, width) && c < width
    ensures Means(m, rows, width)[c] >= 0.0
    ensures Means(m, rows, width)[c] == 0.0 <==> forall j :: 0 <= j < |rows| ==> rows[j][c].NegInf?
    ensures Multiple(ColumnTotals(m, rows, width)[c], |rows| as real, Means(m, rows, width)[c])
  {
    var column := Column(rows, c);
    ProbsNonNegative(m, column);
    hide Lawful, Sum, Probs;
    assert (forall j :: 0 <= j < |column| ==> column[j].NegInf?)
           <==> forall j :: 0 <= j < |rows| ==> rows[j][c].NegInf?;
    Share(Sum(Probs(m, column)), |rows| as real, Means(m, rows, width)[c]);
  }

  lemma Share(total: real, n: real, mean: real)
    requires total >= 0.0 && n > 0.0 && mean == total / n
    ensures mean >= 0.0 && (mean == 0.0 <==> total == 0.0) && Multiple(total, n, mean)
  {
    assert mean * n == total;
  }

  /** Mixture rows carry the mean probabilities. */
  lemma MixtureMeans(m: Math, rows: seq<seq<Logprob>>, width: nat)
    requires Lawful(m) && SameWidth(rows, width)
    ensures Probs(m, Mixture(m, rows)) == Means(m, rows, width)
    ensures forall c :: 0 <= c < width ==> Mixture(m, rows)[c] == LogOf(m, Means(m, rows, width)[c])
  {
    forall c | 0 <= c < width
      ensures Mixture(m, rows)[c] == LogOf(m, Means(m, rows, width)[c])
      ensures Probs(m, Mixture(m, rows))[c] == Means(m, rows, width)[c]
    {
      LogMeanExpMeaning(m, Column(rows, c));
      MeanCell(m, rows, width, c);
      ProbOfLog(m, Means(m, rows, width)[c]);
    }
  }

  /** The averages' divergence is at most the weighted means. */
  lemma AveragesBelowDots(m: Math, refs: seq<seq<Logprob>>, cands: seq<seq<Logprob>>, width: nat)
    requires Lawful(m) && SameWidth(refs, width) && SameWidth(cands, width) && Unfloored(refs, cands, width)
    ensures
      var p, q := Means(m, refs, width), Means(m, cands, width);
      AtMostDifference(AveragesDivergence(m, refs, cands), Dot(Weights(m, p, q), p), Dot(Slopes(p, q), q))
  {
    var p, q := Means(m, refs, width), Means(m, cands, width);
    var ts, w, r := Terms(m, Zip(Mixture(m, refs), Mixture(m, cands))), Weights(m, p, q), Slopes(p, q);
    MixtureMeans(m, refs, width);
    MixtureMeans(m, cands, width);
    forall c | 0 <= c < width ensures BelowWeighted(ts[c], w[c], p[c], r[c], q[c]) {
      UnflooredMeans(m, refs, cands, width, c);
      AverageCell(m, p[c], q[c]);
    }
    DotsAbove(ts, w, p, r, q);
  }

  lemma UnflooredMeans(m: Math, refs: seq<seq<Logprob>>, cands: seq<seq<Logprob>>, width: nat, c: nat)
    requires Lawful(m) && SameWidth(refs, width) && SameWidth(cands, width) && Unfloored(refs, cands, width)
             && c < width
    ensures Means(m, refs, width)[c] >= 0.0 && Means(m, cands, width)[c] >= 0.0
    ensures Means(m, cands, width)[c] == 0.0 ==> Means(m, refs, width)[c] == 0.0
  {
    MeanCell(m, refs, width, c);
    MeanCell(m, cands, width, c);
    UnflooredColumn(refs, cands, width, c);
  }

  lemma UnflooredColumn(refs: seq<seq<Logprob>>, cands: seq<seq<Logprob>>, width: nat, c: nat)
    requires SameWidth(refs, width) && SameWidth(cands, width) && Unfloored(refs, cands, width) && c < width
    ensures (exists j :: 0 <= j < |cands| && cands[j][c].NegInf?) ==> forall i :: 0 <= i < |refs| ==> refs[i][c].NegInf?
  {
  }

  lemma CrossAboveDots(m: Math, refs: seq<seq<Logprob>>, cands: seq<seq<Logprob>>, width: nat, i: nat, j: nat)
    requires Lawful(m) && SameWidth(refs, width) && SameWidth(cands, width) && Unfloored(refs, cands, width)
    requires i < |refs| && j < |cands|
    ensures
      var p, q := Means(m, refs, width), Means(m, cands, width);
      KlRows(m, refs[i], cands[j]) >= Dot(Weights(m, p, q), Probs(m, refs[i])) - Dot(Slopes(p, q), Probs(m, cands[j]))
  {
    var p, q := Means(m, refs, width), Means(m, cands, width);
    forall c | 0 <= c < width ensures CellBetween(m, Cell(refs[i][c], cands[j][c]), p[c], q[c]) {
      MeanCell(m, refs, width, c);
      MeanCell(m, cands, width, c);
    }
    PairAboveDots(m, refs[i], cands[j], p, q);
  }

  /** Each column total is the number of rows times its mean. */
  ghost predicate MeanOfColumns(m: Math, rows: seq<seq<Logprob>>, means: seq<real>) {
    SameWidth(rows, |means|) && Multiples(ColumnTotals(m, rows, |means|), |rows| as real, means)
  }

  lemma MeansOfColumns(m: Math, rows: seq<seq<Logprob>>, width: nat)
    requires Lawful(m) && SameWidth(rows, width)
    ensures MeanOfColumns(m, rows, Means(m, rows, width))
  {
    forall c | 0 <= c < width
      ensures Multiple(ColumnTotals(m, rows, width)[c], |rows| as real, Means(m, rows, width)[c])
    {
      MeanCell(m, rows, width, c);
    }
  }

  lemma TotalsAreMeans(m: Math, rows: seq<seq<Logprob>>, w: seq<real>, means: seq<real>)
    requires |w| == |means| && MeanOfColumns(m, rows, means)
    ensures Multiple(Sum(RowDots(m, w, rows)), |rows| as real, Dot(w, means))
  {
    DotOfTotals(m, w, rows);
    DotScale(w, means, ColumnTotals(m, rows, |w|), |rows| as real);
  }

  /** Weighted row totals and weighted means of both arms, with the bounds they satisfy. */
  lemma CrossFacts(m: Math, refs: seq<seq<Logprob>>, cands: seq<seq<Logprob>>, width: nat)
    returns (a: real, b: real, x: real, y: real)
    requires Lawful(m) && SameWidth(refs, width) && SameWidth(cands, width) && Unfloored(refs, cands, width)
    ensures AtMostDifference(AveragesDivergence(m, refs, cands), x, y)
    ensures Multiple(a, |refs| as real, x) && Multiple(b, |cands| as real, y)
    ensures CrossBound(Sum(CrossPairs(m, refs, cands)), |cands| as real, a, |refs| as real, b)
  {
    var p, q := Means(m, refs, width), Means(m, cands, width);
    var w, r := Weights(m, p, q), Slopes(p, q);
    a, b, x, y := Sum(RowDots(m, w, refs)), Sum(RowDots(m, r, cands)), Dot(w, p), Dot(r, q);
    EveryPairAbove(m, refs, cands, width);
    CrossAbove(m, refs, cands, RowDots(m, w, refs), RowDots(m, r, cands));
    MeansOfColumns(m, refs, width);
    MeansOfColumns(m, cands, width);
    TotalsAreMeans(m, refs, w, p);
    TotalsAreMeans(m, cands, r, q);
    AveragesBelowDots(m, refs, cands, width);
  }

  /** Joint convexity at an unfloored position: the divergence of the averages is at most the mean
      cross-arm pairwise divergence. */
  lemma AveragesBelowCross(m: Math, refs: seq<seq<Logprob>>, cands: seq<seq<Logprob>>, width: nat)
    requires Lawful(m) && SameWidth(refs, width) && SameWidth(cands, width) && Unfloored(refs, cands, width)
    ensures AveragesDivergence(m, refs, cands) <= CrossDivergence(m, refs, cands)
  {
    var a, b, x, y := CrossFacts(m, refs, cands, width);
    var d, total := AveragesDivergence(m, refs, cands), Sum(CrossPairs(m, refs, cands));
    DivideOut(total, d, x, a, y, b, |refs| as real, |cands| as real);
    MeanOverPairs(d, total, |refs|, |cands|);
  }

  lemma MeanOverPairs(d: real, total: real, n: nat, k: nat)
    requires AtMostMean(d, total, n as real, k as real)
    ensures n * k > 0 && d <= total / (n * k) as real
  {
    assert (n * k) as real == n as real * k as real;
  }

  lemma EveryPairAbove(m: Math, refs: seq<seq<Logprob>>, cands: seq<seq<Logprob>>, width: nat)
    requires Lawful(m) && SameWidth(refs, width) && SameWidth(cands, width) && Unfloored(refs, cands, width)
    ensures
      var p, q := Means(m, refs, width), Means(m, cands, width);
      AllPairsAbove(m, refs, cands, RowDots(m, Weights(m, p, q), refs), RowDots(m, Slopes(p, q), cands))
  {
    var p, q := Means(m, refs, width), Means(m, cands, width);
    var a, b := RowDots(m, Weights(m, p, q), refs), RowDots(m, Slopes(p, q), cands);
    forall i, j | 0 <= i < |refs| && 0 <= j < |cands| ensures PairAbove(m, refs[i], cands[j], a[i], b[j]) {
      CrossAboveDots(m, refs, cands, width, i, j);
    }
  }

  ghost predicate AtMostMean(d: real, total: real, n: real, k: real) {
    n * k > 0.0 && d <= total / (n * k)
  }

  ghost predicate AtMostDifference(d: real, x: real, y: real) {
    d <= x - y
  }

  lemma DivideOut(total: real, d: real, x: real, nx: real, y: real, ky: real, n: real, k: real)
    requires n > 0.0 && k > 0.0 && AtMostDifference(d, x, y)
    requires Multiple(nx, n, x) && Multiple(ky, k, y) && CrossBound(total, k, nx, n, ky)
    ensures AtMostMean(d, total, n, k)
  {
    var nk := n * k;
    assert k * (n * x) - n * (k * y) == nk * (x - y);
    var slack := total - nk * d;
    assert nk * d <= nk * (x - y);
    assert slack / nk >= 0.0;
    assert total / nk == d + slack / nk;
  }

  // ---------------------------------------------------------------- D >= 0, and the whole position

  /** Every row's probabilities add up to one, or to at most `1 + tol` when its mass was clamped. */
  ghost predicate Arm(m: Math, rows: seq<seq<Logprob>>, width: nat, tol: real) {
    && SameWidth(rows, width)
    && forall j :: 0 <= j < |rows| ==> 1.0 <= Sum(Probs(m, rows[j])) <= 1.0 + tol
  }

  function Ones(n: nat): (r: seq<real>)
    ensures |r| == n && forall i :: 0 <= i < n ==> r[i] == 1.0
  {
    seq(n, i => 1.0)
  }

  lemma {:induction false} DotOnes(v: seq<real>)
    ensures Dot(Ones(|v|), v) == Sum(v)
  {
    if |v| == 0 {
    } else {
      var n := |v| - 1;
      assert Ones(|v|)[..n] == Ones(n);
      DotOnes(v[..n]);
    }
  }

  ghost predicate Between(total: real, n: real, lo: real, hi: real) {
    n * lo <= total <= n * hi
  }

  lemma {:induction false} SumBetween(xs: seq<real>, lo: real, hi: real)
    requires forall j :: 0 <= j < |xs| ==> lo <= xs[j] <= hi
    ensures Between(Sum(xs), |xs| as real, lo, hi)
  {
    if |xs| == 0 {
    } else {
      var n := |xs| - 1;
      SumBetween(xs[..n], lo, hi);
      Distribute(lo, n as real, 1.0);
      Distribute(hi, n as real, 1.0);
    }
  }

  /** Total mass of an arm's rows and the mass of their average. */
  lemma MassFacts(m: Math, rows: seq<seq<Logprob>>, width: nat, lo: real, hi: real) returns (total: real)
    requires Lawful(m) && SameWidth(rows, width)
    requires forall j :: 0 <= j < |rows| ==> lo <= Sum(Probs(m, rows[j])) <= hi
    ensures Multiple(total, |rows| as real, Sum(Probs(m, Mixture(m, rows))))
    ensures Between(total, |rows| as real, lo, hi)
  {
    var means, masses := Means(m, rows, width), RowDots(m, Ones(width), rows);
    forall j | 0 <= j < |rows| ensures masses[j] == Sum(Probs(m, rows[j])) {
      DotOnes(Probs(m, rows[j]));
    }
    SumBetween(masses, lo, hi);
    MeansOfColumns(m, rows, width);
    TotalsAreMeans(m, rows, Ones(width), means);
    DotOnes(means);
    MixtureMeans(m, rows, width);
    total := Sum(masses);
  }

  /** The mixture is a distribution when its executions are: its mass lies between the smallest and
      the largest execution mass. */
  lemma MixtureMass(m: Math, rows: seq<seq<Logprob>>, width: nat, lo: real, hi: real)
    requires Lawful(m) && SameWidth(rows, width)
    requires forall j :: 0 <= j < |rows| ==> lo <= Sum(Probs(m, rows[j])) <= hi
    ensures lo <= Sum(Probs(m, Mixture(m, rows))) <= hi
  {
    var total := MassFacts(m, rows, width, lo, hi);
    Cancel(|rows| as real, total, Sum(Probs(m, Mixture(m, rows))), lo, hi);
  }

  lemma Cancel(n: real, total: real, mean: real, lo: real, hi: real)
    requires n > 0.0 && Multiple(total, n, mean) && Between(total, n, lo, hi)
    ensures lo <= mean <= hi
  {
    assert n * (mean - lo) >= 0.0;
    assert n * (hi - mean) >= 0.0;
  }

  /** An unfloored pair of averages is above the difference of its masses. */
  lemma AveragesAboveMasses(m: Math, refs: seq<seq<Logprob>>, cands: seq<seq<Logprob>>, width: nat)
    requires Lawful(m) && SameWidth(refs, width) && SameWidth(cands, width) && Unfloored(refs, cands, width)
    ensures AveragesDivergence(m, refs, cands) >= Sum(Probs(m, Mixture(m, refs))) - Sum(Probs(m, Mixture(m, cands)))
  {
    var cells := Zip(Mixture(m, refs), Mixture(m, cands));
    MixtureMeans(m, refs, width);
    MixtureMeans(m, cands, width);
    forall c | 0 <= c < width ensures !Hit(m, cells[c]) {
      UnflooredMeans(m, refs, cands, width, c);
    }
    assert PSide(cells) == Mixture(m, refs) && QSide(cells) == Mixture(m, cands);
    MeasuredMass(m, cells);
    TermsAboveMasses(m, cells);
  }

  /** The repeated-execution bounds. At an unfloored position D is at most X; D is at least minus the
      clamping tolerance, and non-negative when no candidate execution was clamped. */
  lemma AveragesBounds(m: Math, refs: seq<seq<Logprob>>, cands: seq<seq<Logprob>>, width: nat, tol: real)
    requires Lawful(m) && Arm(m, refs, width, tol) && Arm(m, cands, width, tol) && Unfloored(refs, cands, width)
    ensures -tol <= AveragesDivergence(m, refs, cands) <= CrossDivergence(m, refs, cands)
    ensures (forall j :: 0 <= j < |cands| ==> Sum(Probs(m, cands[j])) == 1.0) ==>
            AveragesDivergence(m, refs, cands) >= 0.0
  {
    AveragesBelowCross(m, refs, cands, width);
    AveragesAboveMasses(m, refs, cands, width);
    MixtureMass(m, refs, width, 1.0, 1.0 + tol);
    MixtureMass(m, cands, width, 1.0, 1.0 + tol);
    if forall j :: 0 <= j < |cands| ==> Sum(Probs(m, cands[j])) == 1.0 {
      MixtureMass(m, cands, width, 1.0, 1.0);
    }
  }
}
