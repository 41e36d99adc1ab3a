/** The vectorised path of scripts/fidelity/metrics.py, one row at a time: fixed-width columns with
    absent cells masked to `-inf`, a compensated sum over sorted probabilities, and the proof that on
    rows whose shared ids do not repeat it computes what the per-position form computes. */
module NumpyKl {
  import opened Options
  import opened RealMath
  import opened Sums
  import opened Sorting
  import opened CoarseKl

  datatype RestRow = RestRow(logRest: Logprob, clamped: bool, over: bool)

  predicate Below(a: Logprob, b: Logprob) {
    b.Fin? && (a.NegInf? || a.v < b.v)
  }

  /** First column holding the largest logprob. */
  function ArgMax(row: seq<Logprob>): (i: nat)
    requires |row| > 0
    ensures i < |row| && forall k :: 0 <= k < |row| ==> !Below(row[i], row[k]) && (k < i ==> Below(row[k], row[i]))
  {
    if |row| == 1 then 0
    else
      var best := ArgMax(row[..|row| - 1]);
      if Below(row[best], row[|row| - 1]) then |row| - 1 else best
  }

  /** Neumaier summation: in exact arithmetic the running compensation stays zero. */
  method CompensatedSum(xs: seq<real>) returns (total: real, comp: real)
    ensures total + comp == Sum(xs)
  {
    total, comp := 0.0, 0.0;
    for j := 0 to |xs|
      invariant total == Sum(xs[..j]) && comp == 0.0
    {
      var x := xs[j];
      var t := total + x;
      comp := comp + if Abs(total) >= Abs(x) then (total - t) + x else (x - t) + total;
      assert xs[..j + 1] == xs[..j] + [x];
      SumSnoc(xs[..j], x);
      total := t;
    }
    assert xs[..|xs|] == xs;
  }

  /** The rest of one row of known-cell logprobs: the largest cell enters through `expm1`, the others
      through a compensated sum in ascending order. It agrees with the per-position rest, whose
      inconsistent outcome is the `over` flag here. */
  method LogRestRow(m: Math, row: seq<Logprob>, tol: real) returns (r: RestRow)
    requires tol >= 0.0
    ensures r.over <==> LogRestOf(m, row, tol).Inconsistent?
    ensures !r.over ==> Rest(r.logRest, r.clamped) == LogRestOf(m, row, tol)
  {
    var others, top := Probs(m, row), NegInf;
    if |row| > 0 {
      var arg := ArgMax(row);
      top := row[arg];
      SumUpdate(others, arg, 0.0);
      others := others[arg := 0.0];
    }
    assert Sum(others) == Sum(Probs(m, row)) - Prob(m, top);
    SortMeaning(others);
    SumOfPermutation(others, Sort(others));
    var total, comp := CompensatedSum(Sort(others));
    r := Classify(m, Prob(m, top), total + comp, tol);
    LogRestMeaning(m, row, tol);
  }

  function Classify(m: Math, top: real, others: real, tol: real): (r: RestRow)
    requires tol >= 0.0
    ensures r.over <==> RestOfMass(m, top + others, tol).Inconsistent?
    ensures !r.over ==> Rest(r.logRest, r.clamped) == RestOfMass(m, top + others, tol)
  {
    var rest := -(top - 1.0) - others;
    var mass := top + others;
    var small := mass <= 0.5;
    var over := !small && rest < -tol;
    var clamped := !small && rest < 0.0 && !over;
    RestRow(if small then Fin(m.ln(1.0 - mass)) else if rest > 0.0 then Fin(m.ln(rest)) else NegInf, clamped, over)
  }

  function Abs(x: real): (r: real)
    ensures r >= 0.0 && (r == x || r == -x)
  {
    if x < 0.0 then -x else x
  }

  // ---------------------------------------------------------------- masked columns

  function FirstIndex(ids: seq<int>, id: int): (i: nat)
    requires id in ids
    ensures i < |ids| && ids[i] == id && forall j :: 0 <= j < i ==> ids[j] != id
  {
    if ids[0] == id then 0 else 1 + FirstIndex(ids[1..], id)
  }

  function AsLogprob(e: Entry): Logprob {
    if e.Known? then e.lp else NegInf
  }

  /** Column `i`: the shared cell of a matched token, or a pair of masked zeros. */
  function Column(refIds: seq<int>, refLps: seq<Entry>, candIds: seq<int>, candLps: seq<Entry>, i: nat): Cell
    requires |refIds| == |refLps| && |candIds| == |candLps| && i < |refIds|
  {
    if refIds[i] >= 0 && refIds[i] in candIds then
      Cell(AsLogprob(refLps[i]), AsLogprob(candLps[FirstIndex(candIds, refIds[i])]))
    else Cell(NegInf, NegInf)
  }

  function Columns(refIds: seq<int>, refLps: seq<Entry>, candIds: seq<int>, candLps: seq<Entry>, n: nat): (r: seq<Cell>)
    requires |refIds| == |refLps| && |candIds| == |candLps| && n <= |refIds|
    ensures |r| == n && forall i :: 0 <= i < n ==> r[i] == Column(refIds, refLps, candIds, candLps, i)
  {
    seq(n, i requires 0 <= i < n => Column(refIds, refLps, candIds, candLps, i))
  }

  function ExtraColumn(refIds: seq<int>, candIds: seq<int>, extra: Option<Extra>): seq<Cell> {
    if extra.None? then []
    else
      var e := extra.value;
      if e.token >= 0 && !(e.token in refIds && e.token in candIds) && e.p.Known? && e.q.Known? then
        [Cell(e.p.lp, e.q.lp)]
      else [Cell(NegInf, NegInf)]
  }

  predicate BadRow(ids: seq<int>, lps: seq<Entry>) {
    (exists i :: 0 <= i < |ids| && RealAt(ids, lps, i) && lps[i].NaN?) || forall i :: 0 <= i < |ids| ==> ids[i] < 0
  }

  /** An id of `a` that `b` has too stands only once in `a`. */
  ghost predicate OnceIfIn(a: seq<int>, b: seq<int>) {
    forall i, j :: 0 <= i < j < |a| && a[i] >= 0 && a[i] == a[j] ==> a[i] !in b
  }

  /** No real id that both rows hold stands twice in either. */
  ghost predicate SharedOnce(refIds: seq<int>, candIds: seq<int>) {
    OnceIfIn(refIds, candIds) && OnceIfIn(candIds, refIds)
  }

  /** One row of the vectorised divergence. On rows whose shared ids do not repeat it is the per-position
      divergence. */
  method NumpyDivergence(m: Math, refIds: seq<int>, refLps: seq<Entry>, candIds: seq<int>, candLps: seq<Entry>,
                         extra: Option<Extra>, tol: real) returns (r: KL)
    requires |refIds| == |refLps| && |candIds| == |candLps| && tol >= 0.0
    ensures r == NumpyKlOf(m, refIds, refLps, candIds, candLps, extra, tol)
    ensures SharedOnce(refIds, candIds) ==>
              r == CoarseKlOf(m, refIds, refLps, candIds, candLps, extra, tol)
  {
    var cells := Columns(refIds, refLps, candIds, candLps, |refIds|) + ExtraColumn(refIds, candIds, extra);
    var restP := LogRestRow(m, PSide(cells), tol);
    var restQ := LogRestRow(m, QSide(cells), tol);
    var over := restP.over || restQ.over;
    var bad := BadRow(refIds, refLps) || BadRow(candIds, candLps);
    if bad || over {
      r := Invalid;
    } else {
      var last := TermLp(m, restP.logRest, restQ.logRest);
      r := Valid(Sum(Terms(m, cells)) + last.0, restP.clamped || restQ.clamped, AnyFloored(m, cells) || last.1);
    }
    if SharedOnce(refIds, candIds) {
      PathsAgree(m, refIds, refLps, candIds, candLps, extra, tol);
    }
  }

  ghost function NumpyKlOf(m: Math, refIds: seq<int>, refLps: seq<Entry>, candIds: seq<int>, candLps: seq<Entry>,
                           extra: Option<Extra>, tol: real): KL
    requires |refIds| == |refLps| && |candIds| == |candLps|
  {
    if BadRow(refIds, refLps) || BadRow(candIds, candLps) then Invalid
    else KlOfCells(m, Columns(refIds, refLps, candIds, candLps, |refIds|) + ExtraColumn(refIds, candIds, extra), tol)
  }

  // ---------------------------------------------------------------- agreement

  /** Two cell lists that a divergence cannot tell apart. */
  ghost predicate SameSums(m: Math, a: seq<Cell>, b: seq<Cell>) {
    && Sum(Ps(m, a)) == Sum(Ps(m, b)) && Sum(Qs(m, a)) == Sum(Qs(m, b))
    && Sum(Terms(m, a)) == Sum(Terms(m, b)) && AnyFloored(m, a) == AnyFloored(m, b)
  }

  lemma SameDivergence(m: Math, a: seq<Cell>, b: seq<Cell>, tol: real)
    requires SameSums(m, a, b)
    ensures KlOfCells(m, a, tol) == KlOfCells(m, b, tol)
  {
    LogRestMeaning(m, PSide(a), tol);
    LogRestMeaning(m, PSide(b), tol);
    LogRestMeaning(m, QSide(a), tol);
    LogRestMeaning(m, QSide(b), tol);
  }

  lemma CellSnoc(m: Math, cells: seq<Cell>, c: Cell)
    ensures Sum(Ps(m, cells + [c])) == Sum(Ps(m, cells)) + Prob(m, c.p)
    ensures Sum(Qs(m, cells + [c])) == Sum(Qs(m, cells)) + Prob(m, c.q)
  {
    assert Ps(m, cells + [c]) == Ps(m, cells) + [Prob(m, c.p)];
    assert Qs(m, cells + [c]) == Qs(m, cells) + [Prob(m, c.q)];
    SumSnoc(Ps(m, cells), Prob(m, c.p));
    SumSnoc(Qs(m, cells), Prob(m, c.q));
  }

  lemma SnocBoth(m: Math, a: seq<Cell>, b: seq<Cell>, c: Cell)
    requires SameSums(m, a, b)
    ensures SameSums(m, a + [c], b + [c])
  {
    CellSnoc(m, a, c);
    CellSnoc(m, b, c);
    TermsSnoc(m, a, c);
    TermsSnoc(m, b, c);
  }

  lemma SnocMask(m: Math, a: seq<Cell>, b: seq<Cell>)
    requires SameSums(m, a, b)
    ensures SameSums(m, a + [Cell(NegInf, NegInf)], b)
  {
    CellSnoc(m, a, Cell(NegInf, NegInf));
    TermsSnoc(m, a, Cell(NegInf, NegInf));
  }

  /** An id that stands once is in a usable row's dictionary with its own entry. */
  lemma EntryOf(ids: seq<int>, lps: seq<Entry>, i: nat)
    requires |ids| == |lps| && i < |ids| && ids[i] >= 0
    requires forall j :: 0 <= j < |ids| && j != i ==> ids[j] != ids[i]
    requires RowOf(ids, lps).Some?
    ensures ids[i] in RowOf(ids, lps).value.at && lps[i] == Known(RowOf(ids, lps).value.at[ids[i]])
  {
    GatheredMeaning(ids, lps, |ids|);
    assert RealAt(ids, lps, i);
    var at := RowOf(ids, lps).value.at;
    var j :| 0 <= j < |ids| && LastAt(ids, lps, j, |ids|, ids[i]) && lps[j] == Known(at[ids[i]]);
    assert i == j;
  }

  lemma UsableRow(ids: seq<int>, lps: seq<Entry>)
    requires |ids| == |lps|
    ensures RowOf(ids, lps).Some? <==> !BadRow(ids, lps)
    ensures RowOf(ids, lps).Some? ==> forall k :: k in RowOf(ids, lps).value.at <==> k >= 0 && k in ids
  {
    GatheredMeaning(ids, lps, |ids|);
    var row := Gathered(ids, lps, |ids|);
    if row.Some? {
      var at := row.value.at;
      forall k ensures k in at <==> k >= 0 && k in ids {
        if k in at {
          var i :| 0 <= i < |ids| && LastAt(ids, lps, i, |ids|, k) && lps[i] == Known(at[k]);
        }
        if k >= 0 && k in ids {
          var i :| 0 <= i < |ids| && ids[i] == k;
          assert RealAt(ids, lps, i);
        }
      }
      if |row.value.keys| > 0 {
        assert row.value.keys[0] in row.value.keys;
        var i :| 0 <= i < |ids| && LastAt(ids, lps, i, |ids|, row.value.keys[0])
            && lps[i] == Known(at[row.value.keys[0]]);
        assert RealAt(ids, lps, i);
      } else {
        forall i | 0 <= i < |ids| ensures ids[i] < 0 {
          assert RealAt(ids, lps, i) <==> ids[i] >= 0;
        }
      }
    }
  }

  /** The real ids among the first `n` that the candidate's dictionary has. */
  function SharedIds(ids: seq<int>, n: nat, q: map<int, Logprob>): seq<int>
    requires n <= |ids|
  {
    if n == 0 then []
    else SharedIds(ids, n - 1, q) + if ids[n - 1] >= 0 && ids[n - 1] in q then [ids[n - 1]] else []
  }

  /** Ids that repeat without being shared make no difference to the shared keys. */
  lemma {:induction false} KeysShared(ids: seq<int>, lps: seq<Entry>, n: nat, q: map<int, Logprob>)
    requires |ids| == |lps| && n <= |ids| && Gathered(ids, lps, n).Some?
    requires forall i, j :: 0 <= i < j < |ids| && ids[i] >= 0 && ids[i] == ids[j] ==> ids[i] !in q
    ensures Shared(Gathered(ids, lps, n).value.keys, q) == SharedIds(ids, n, q)
  {
    if n == 0 {
    } else {
      KeysShared(ids, lps, n - 1, q);
      var before := Gathered(ids, lps, n - 1).value;
      SharedSnoc(before.keys, ids[n - 1], q);
      if ids[n - 1] >= 0 && ids[n - 1] in before.at {
        SeenBefore(ids, lps, n - 1, ids[n - 1]);
      }
    }
  }

  lemma SeenBefore(ids: seq<int>, lps: seq<Entry>, n: nat, k: int)
    requires |ids| == |lps| && n <= |ids| && Gathered(ids, lps, n).Some? && k in Gathered(ids, lps, n).value.at
    ensures exists i :: 0 <= i < n && ids[i] == k
  {
    GatheredMeaning(ids, lps, n);
    var i :| 0 <= i < n && LastAt(ids, lps, i, n, k) && lps[i] == Known(Gathered(ids, lps, n).value.at[k]);
    assert ids[i] == k;
  }

  /** What column `i` holds, in terms of the two dictionaries. */
  ghost predicate ColumnFits(refIds: seq<int>, c: Cell, p: map<int, Logprob>, q: map<int, Logprob>, i: nat)
    requires i < |refIds|
  {
    if refIds[i] >= 0 && refIds[i] in q then refIds[i] in p && c == Cell(p[refIds[i]], q[refIds[i]])
    else c == Cell(NegInf, NegInf)
  }

  ghost predicate InBoth(tokens: seq<int>, p: map<int, Logprob>, q: map<int, Logprob>) {
    forall i :: 0 <= i < |tokens| ==> tokens[i] in p && tokens[i] in q
  }

  lemma MatchStep(m: Math, front: seq<Cell>, c: Cell, before: seq<int>, k: int, shared: bool,
                  p: map<int, Logprob>, q: map<int, Logprob>)
    requires InBoth(before, p, q) && SameSums(m, front, CellsAt(before, p, q))
    requires if shared then k in p && k in q && c == Cell(p[k], q[k]) else c == Cell(NegInf, NegInf)
    ensures
      var after := before + if shared then [k] else [];
      InBoth(after, p, q) && SameSums(m, front + [c], CellsAt(after, p, q))
  {
    hide SameSums;
    if shared {
      assert CellsAt(before + [k], p, q) == CellsAt(before, p, q) + [c];
      SnocBoth(m, front, CellsAt(before, p, q), c);
    } else {
      assert before + [] == before;
      SnocMask(m, front, CellsAt(before, p, q));
    }
  }

  lemma NothingMatches(m: Math, p: map<int, Logprob>, q: map<int, Logprob>)
    ensures SameSums(m, [], CellsAt([], p, q))
  {
  }

  /** Masked columns carry the same sums as the shared ids' cells. */
  lemma {:induction false} ColumnsMatch(m: Math, refIds: seq<int>, columns: seq<Cell>, p: map<int, Logprob>,
                                        q: map<int, Logprob>)
    requires |columns| <= |refIds|
    requires forall i :: 0 <= i < |columns| ==> ColumnFits(refIds, columns[i], p, q, i)
    ensures InBoth(SharedIds(refIds, |columns|, q), p, q)
    ensures SameSums(m, columns, CellsAt(SharedIds(refIds, |columns|, q), p, q))
  {
    hide SameSums, CellsAt;
    if |columns| == 0 {
      NothingMatches(m, p, q);
    } else {
      var n := |columns| - 1;
      var front, c := columns[..n], columns[n];
      ColumnsMatch(m, refIds, front, p, q);
      assert columns == front + [c];
      assert ColumnFits(refIds, c, p, q, n);
      MatchStep(m, front, c, SharedIds(refIds, n, q), refIds[n], refIds[n] >= 0 && refIds[n] in q, p, q);
    }
  }

  lemma EveryColumnFits(refIds: seq<int>, refLps: seq<Entry>, candIds: seq<int>, candLps: seq<Entry>, i: nat)
    requires |refIds| == |refLps| && |candIds| == |candLps| && i < |refIds|
    requires SharedOnce(refIds, candIds)
    requires RowOf(refIds, refLps).Some? && RowOf(candIds, candLps).Some?
    ensures ColumnFits(refIds, Column(refIds, refLps, candIds, candLps, i),
                       RowOf(refIds, refLps).value.at, RowOf(candIds, candLps).value.at, i)
  {
    if refIds[i] >= 0 {
      UsableRow(candIds, candLps);
      if refIds[i] in candIds {
        var j := FirstIndex(candIds, refIds[i]);
        assert candIds[j] in refIds;
        EntryOf(refIds, refLps, i);
        EntryOf(candIds, candLps, j);
      }
    }
  }

  /** The row's columns against the dictionary's shared cells. */
  lemma SharedColumns(m: Math, refIds: seq<int>, refLps: seq<Entry>, candIds: seq<int>, candLps: seq<Entry>)
    requires |refIds| == |refLps| && |candIds| == |candLps|
    requires SharedOnce(refIds, candIds)
    requires RowOf(refIds, refLps).Some? && RowOf(candIds, candLps).Some?
    ensures
      var ref, cand := RowOf(refIds, refLps).value, RowOf(candIds, candLps).value;
      SameSums(m, Columns(refIds, refLps, candIds, candLps, |refIds|), KnownCells(ref, cand, None))
  {
    var ref, cand := RowOf(refIds, refLps).value, RowOf(candIds, candLps).value;
    var columns := Columns(refIds, refLps, candIds, candLps, |refIds|);
    forall i | 0 <= i < |columns| ensures ColumnFits(refIds, columns[i], ref.at, cand.at, i) {
      EveryColumnFits(refIds, refLps, candIds, candLps, i);
    }
    ColumnsMatch(m, refIds, columns, ref.at, cand.at);
    UsableRow(candIds, candLps);
    KeysShared(refIds, refLps, |refIds|, cand.at);
    assert KnownCells(ref, cand, None) == CellsAt(SharedIds(refIds, |refIds|, cand.at), ref.at, cand.at);
  }

  /** Fast path against simple path: on rows whose shared ids do not repeat the vectorised row equals the
      per-position divergence, flags included. */
  lemma PathsAgree(m: Math, refIds: seq<int>, refLps: seq<Entry>, candIds: seq<int>, candLps: seq<Entry>,
                   extra: Option<Extra>, tol: real)
    requires |refIds| == |refLps| && |candIds| == |candLps|
    requires SharedOnce(refIds, candIds)
    ensures NumpyKlOf(m, refIds, refLps, candIds, candLps, extra, tol)
         == CoarseKlOf(m, refIds, refLps, candIds, candLps, extra, tol)
  {
    UsableRow(refIds, refLps);
    UsableRow(candIds, candLps);
    if !BadRow(refIds, refLps) && !BadRow(candIds, candLps) {
      var ref, cand := RowOf(refIds, refLps).value, RowOf(candIds, candLps).value;
      var columns := Columns(refIds, refLps, candIds, candLps, |refIds|);
      var last := ExtraColumn(refIds, candIds, extra);
      SharedColumns(m, refIds, refLps, candIds, candLps);
      var cells := KnownCells(ref, cand, None);
      if UsesExtra(ref, cand, extra) {
        assert KnownCells(ref, cand, extra) == cells + last;
        SnocBoth(m, columns, cells, last[0]);
      } else {
        assert KnownCells(ref, cand, extra) == cells;
        if extra.Some? {
          SnocMask(m, columns, cells);
        } else {
          assert columns + last == columns;
        }
      }
      SameDivergence(m, columns + last, KnownCells(ref, cand, extra), tol);
    }
  }
}
