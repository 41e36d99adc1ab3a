/** When the vectorised path and the per-position path of scripts/fidelity/metrics.py agree on all scores: exactly
    when no shared id repeats. The per-position dictionary keeps a repeated id's last entry and counts it once; the
    columns take the candidate's first entry and count every reference entry. */
module NumpyRepeats {
  import opened Options
  import opened RealMath
  import opened Sums
  import opened CoarseKl
  import opened NumpyKl

  function LastIndex(ids: seq<int>, id: int): (i: nat)
    requires id in ids
    ensures i < |ids| && ids[i] == id && forall j :: i < j < |ids| ==> ids[j] != id
  {
    if ids[|ids| - 1] == id then |ids| - 1
    else
      assert ids == ids[..|ids| - 1] + [ids[|ids| - 1]];
      LastIndex(ids[..|ids| - 1], id)
  }

  /** All scores are `-inf`, except `lp` at the positions that `at` picks. */
  function ScoresAt(ids: seq<int>, at: set<nat>, lp: Logprob): (r: seq<Entry>)
    ensures |r| == |ids| && forall i: nat :: i < |ids| ==> r[i] == Known(if i in at then lp else NegInf)
  {
    seq(|ids|, (i: nat) requires i < |ids| => Known(if i in at then lp else NegInf))
  }

  /** What the dictionary of such scores holds. */
  lemma DictionaryOf(ids: seq<int>, at: set<nat>, lp: Logprob, t: int)
    requires t >= 0 && t in ids && forall i :: i in at && i < |ids| ==> ids[i] == t
    ensures RowOf(ids, ScoresAt(ids, at, lp)).Some?
    ensures
      var row := RowOf(ids, ScoresAt(ids, at, lp)).value;
      && (forall k :: k in row.at <==> k >= 0 && k in ids)
      && row.at[t] == (if LastIndex(ids, t) in at then lp else NegInf)
      && forall k :: k in row.at && k != t ==> row.at[k] == NegInf
  {
    var lps := ScoresAt(ids, at, lp);
    UsableRow(ids, lps);
    assert !BadRow(ids, lps) by { assert ids[LastIndex(ids, t)] >= 0; }
    GatheredMeaning(ids, lps, |ids|);
    var dict := RowOf(ids, lps).value.at;
    forall k | k in dict
      ensures exists i: nat :: i < |ids| && LastAt(ids, lps, i, |ids|, k) && lps[i] == Known(dict[k])
    {
    }
    var last: nat :| last < |ids| && LastAt(ids, lps, last, |ids|, t) && lps[last] == Known(dict[t]);
    assert last == LastIndex(ids, t);
  }

  // ---------------------------------------------------------------- lists with one live cell

  /** Only cell `x` is live. */
  ghost predicate OnlyAt(cells: seq<Cell>, x: nat, c: Cell) {
    x < |cells| && cells[x] == c && forall i :: 0 <= i < |cells| && i != x ==>
        cells[i].p == NegInf && cells[i].q == NegInf
  }

  lemma SumOnlyAt(xs: seq<real>, x: nat)
    requires x < |xs| && forall i :: 0 <= i < |xs| && i != x ==> xs[i] == 0.0
    ensures Sum(xs) == xs[x]
  {
    SumUpdate(xs, x, 0.0);
    SumZero(xs[x := 0.0]);
  }

  /** One live cell of reference probability one half: valid, and floored exactly when the candidate has zero. */
  lemma OneLiveCell(m: Math, cells: seq<Cell>, x: nat, q: Logprob, tol: real)
    requires Lawful(m) && OnlyAt(cells, x, Cell(Fin(m.ln(0.5)), q))
    requires q == NegInf || q == Fin(m.ln(0.5))
    ensures KlOfCells(m, cells, tol).Valid?
    ensures KlOfCells(m, cells, tol).floored <==> q == NegInf
  {
    assert LnInvertsExp(m, 0.5);
    SumOnlyAt(Probs(m, PSide(cells)), x);
    SumOnlyAt(Probs(m, QSide(cells)), x);
    LogRestMeaning(m, PSide(cells), tol);
    LogRestMeaning(m, QSide(cells), tol);
    assert ExpAboveTangent(m, m.ln(0.5));
    if q == NegInf {
      assert Hit(m, cells[x]);
    } else {
      forall i | 0 <= i < |cells| ensures !Hit(m, cells[i]) {
        assert i != x ==> cells[i].p == NegInf;
      }
    }
  }

  /** Reference mass one half, but the candidate's half counted twice: exhausted, so floored or inconsistent. */
  lemma CountedTwice(m: Math, cells: seq<Cell>, x: nat, y: nat, tol: real)
    requires Lawful(m) && tol >= 0.0 && x < |cells| && y < |cells| && x != y
    requires cells[x] == Cell(Fin(m.ln(0.5)), Fin(m.ln(0.5))) && cells[y].q == Fin(m.ln(0.5))
    requires forall i :: 0 <= i < |cells| && i != x ==> cells[i].p == NegInf
    ensures KlOfCells(m, cells, tol).Valid? ==> KlOfCells(m, cells, tol).floored
  {
    assert LnInvertsExp(m, 0.5);
    SumOnlyAt(Probs(m, PSide(cells)), x);
    var qs := Probs(m, QSide(cells));
    forall i | 0 <= i < |qs| ensures qs[i] >= 0.0 {
      if cells[i].q.Fin? {
        ExpPositive(m, cells[i].q.v);
      }
    }
    TwoHalves(qs, x, y);
    LogRestMeaning(m, PSide(cells), tol);
    LogRestMeaning(m, QSide(cells), tol);
    assert ExpAboveTangent(m, m.ln(0.5));
  }

  lemma TwoHalves(xs: seq<real>, x: nat, y: nat)
    requires x < |xs| && y < |xs| && x != y && xs[x] == xs[y] == 0.5
    requires forall i :: 0 <= i < |xs| ==> xs[i] >= 0.0
    ensures Sum(xs) >= 1.0
  {
    SumUpdate(xs, x, 0.0);
    SumNonNegative(xs[x := 0.0]);
    assert xs[x := 0.0][y] <= Sum(xs[x := 0.0]);
  }

  // ---------------------------------------------------------------- scores that tell the paths apart

  /** The dictionary's cells when only token `t` is live on the reference side. */
  lemma DictionaryCells(ref: Row, cand: Row, t: int, c: Cell) returns (x: nat)
    requires RowOk(ref) && RowOk(cand) && t in ref.at && t in cand.at && c == Cell(ref.at[t], cand.at[t])
    requires forall k :: k in ref.at && k != t ==> ref.at[k] == NegInf
    requires forall k :: k in cand.at && k != t ==> cand.at[k] == NegInf
    ensures OnlyAt(KnownCells(ref, cand, None), x, c)
  {
    var shared, cells := Shared(ref.keys, cand.at), KnownCells(ref, cand, None);
    SharedDistinct(ref.keys, cand.at);
    assert t in ref.keys;
    assert t in shared;
    x :| x < |shared| && shared[x] == t;
    forall i | 0 <= i < |shared| ensures shared[i] in ref.at && shared[i] in cand.at {
      var k := shared[i];
      assert k in ref.keys;
    }
    assert cells == CellsAt(shared, ref.at, cand.at);
    forall i | 0 <= i < |cells| && i != x ensures cells[i].p == NegInf && cells[i].q == NegInf {
      assert shared[i] != t;
    }
  }

  /** A shared id that repeats in the reference row. */
  lemma ReferenceRepeat(m: Math, refIds: seq<int>, candIds: seq<int>, t: int, tol: real)
    returns (refLps: seq<Entry>, candLps: seq<Entry>)
    requires Lawful(m) && tol >= 0.0 && t >= 0 && t in refIds && t in candIds
             && FirstIndex(refIds, t) != LastIndex(refIds, t)
    ensures |refLps| == |refIds| && |candLps| == |candIds|
    ensures NumpyKlOf(m, refIds, refLps, candIds, candLps, None, tol)
            != CoarseKlOf(m, refIds, refLps, candIds, candLps, None, tol)
  {
    hide KlOfCells, KnownCells, Gathered;
    var half := Fin(m.ln(0.5));
    var first, last := FirstIndex(refIds, t), LastIndex(refIds, t);
    var everywhere := set i: nat | i < |candIds| && candIds[i] == t;
    refLps, candLps := ScoresAt(refIds, {last}, half), ScoresAt(candIds, everywhere, half);
    DictionaryOf(refIds, {last}, half, t);
    DictionaryOf(candIds, everywhere, half, t);
    UsableRow(refIds, refLps);
    UsableRow(candIds, candLps);
    var ref, cand := RowOf(refIds, refLps).value, RowOf(candIds, candLps).value;
    var x := DictionaryCells(ref, cand, t, Cell(half, half));
    OneLiveCell(m, KnownCells(ref, cand, None), x, half, tol);
    var columns := Columns(refIds, refLps, candIds, candLps, |refIds|);
    assert columns[last] == Cell(half, half) && columns[first].q == half;
    CountedTwice(m, columns, last, first, tol);
    assert columns + ExtraColumn(refIds, candIds, None) == columns;
  }

  /** A shared id that stands once in the reference row and repeats in the candidate row. */
  lemma CandidateRepeat(m: Math, refIds: seq<int>, candIds: seq<int>, t: int, tol: real)
    returns (refLps: seq<Entry>, candLps: seq<Entry>)
    requires Lawful(m) && t >= 0 && t in refIds && t in candIds
    requires FirstIndex(refIds, t) == LastIndex(refIds, t) && FirstIndex(candIds, t) != LastIndex(candIds, t)
    ensures |refLps| == |refIds| && |candLps| == |candIds|
    ensures NumpyKlOf(m, refIds, refLps, candIds, candLps, None, tol)
            != CoarseKlOf(m, refIds, refLps, candIds, candLps, None, tol)
  {
    hide KlOfCells, KnownCells, Gathered;
    var half := Fin(m.ln(0.5));
    var at, first := FirstIndex(refIds, t), FirstIndex(candIds, t);
    refLps, candLps := ScoresAt(refIds, {at}, half), ScoresAt(candIds, {first}, half);
    DictionaryOf(refIds, {at}, half, t);
    DictionaryOf(candIds, {first}, half, t);
    UsableRow(refIds, refLps);
    UsableRow(candIds, candLps);
    var ref, cand := RowOf(refIds, refLps).value, RowOf(candIds, candLps).value;
    var x := DictionaryCells(ref, cand, t, Cell(half, NegInf));
    OneLiveCell(m, KnownCells(ref, cand, None), x, NegInf, tol);
    var columns := Columns(refIds, refLps, candIds, candLps, |refIds|);
    forall i | 0 <= i < |columns| && i != at ensures columns[i].p == NegInf && columns[i].q == NegInf {
      assert refIds[i] != t;
    }
    assert OnlyAt(columns, at, Cell(half, half));
    OneLiveCell(m, columns, at, half, tol);
    assert columns + ExtraColumn(refIds, candIds, None) == columns;
  }

  /** Both paths give the same result for these scores. */
  ghost predicate SameResult(m: Math, refIds: seq<int>, refLps: seq<Entry>, candIds: seq<int>, candLps: seq<Entry>,
                             tol: real)
    requires |refIds| == |refLps| && |candIds| == |candLps|
  {
    NumpyKlOf(m, refIds, refLps, candIds, candLps, None, tol)
        == CoarseKlOf(m, refIds, refLps, candIds, candLps, None, tol)
  }

  /** Two rows of ids get the same result from both paths for all scores exactly when no id they share repeats. */
  lemma PathsAgreeExactly(m: Math, refIds: seq<int>, candIds: seq<int>, tol: real)
    requires Lawful(m) && tol >= 0.0
    ensures (forall refLps, candLps | |refLps| == |refIds| && |candLps| == |candIds| ::
               SameResult(m, refIds, refLps, candIds, candLps, tol))
            <==> SharedOnce(refIds, candIds)
  {
    if SharedOnce(refIds, candIds) {
      forall refLps, candLps | |refLps| == |refIds| && |candLps| == |candIds|
        ensures SameResult(m, refIds, refLps, candIds, candLps, tol)
      {
        PathsAgree(m, refIds, refLps, candIds, candLps, None, tol);
      }
    } else if i, j :| 0 <= i < j < |refIds| && refIds[i] >= 0 && refIds[i] == refIds[j] && refIds[i] in candIds {
      var refLps, candLps := ReferenceRepeat(m, refIds, candIds, refIds[i], tol);
      assert !SameResult(m, refIds, refLps, candIds, candLps, tol);
    } else {
      var i, j :| 0 <= i < j < |candIds| && candIds[i] >= 0 && candIds[i] == candIds[j] && candIds[i] in refIds;
      var first, last := FirstIndex(refIds, candIds[i]), LastIndex(refIds, candIds[i]);
      assert first <= last;
      var refLps, candLps := CandidateRepeat(m, refIds, candIds, candIds[i], tol);
      assert !SameResult(m, refIds, refLps, candIds, candLps, tol);
    }
  }
}
