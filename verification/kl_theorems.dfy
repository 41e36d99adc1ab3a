/** What the coarse divergence guarantees: a lower bound on the full-vocabulary divergence, and a bounded negative
    error when masses are clamped or zeros floored. */
module KlTheorems {
  import opened Options
  import opened RealMath
  import opened Sums
  import opened CoarseKl

  // ---------------------------------------------------------------- terms against their tangent

  lemma ProbOfLog(m: Math, x: real)
    requires Lawful(m) && x >= 0.0
    ensures Prob(m, LogOf(m, x)) == x
  {
    assert LnInvertsExp(m, x);
  }

  lemma ProbBounds(m: Math, lp: Logprob)
    requires Lawful(m)
    ensures Prob(m, lp) >= 0.0 && (Prob(m, lp) == 0.0 <==> lp.NegInf?)
    ensures lp.Fin? ==> m.ln(Prob(m, lp)) == lp.v
  {
    if lp.Fin? {
      ExpPositive(m, lp.v);
      assert LnInvertsExp(m, lp.v);
    }
  }

  /** The candidate probability a term is measured against: the floor when the zero was replaced. */
  function MeasuredQ(m: Math, c: Cell): real {
    if Hit(m, c) then Q_FLOOR else Prob(m, c.q)
  }

  lemma TermTangent(m: Math, c: Cell, r: real)
    requires Lawful(m) && r > 0.0
    ensures AboveLine(TermLp(m, c.p, c.q).0, Prob(m, c.p), MeasuredQ(m, c), m.ln(r) + 1.0, r)
  {
    ProbBounds(m, c.p);
    ProbBounds(m, c.q);
    if c.p.Fin? {
      DivergenceTangent(m, Prob(m, c.p), MeasuredQ(m, c), r);
    } else {
      assert r * MeasuredQ(m, c) >= 0.0;
    }
  }

  // ---------------------------------------------------------------- merging cells

  /** Key `k` of the fine partition names the cell `c`. */
  ghost predicate Names(fine: seq<Cell>, keys: seq<int>, k: int, c: Cell)
    requires |fine| == |keys|
  {
    exists i :: 0 <= i < |keys| && keys[i] == k && fine[i] == c
  }

  lemma PickedSums(m: Math, fine: seq<Cell>, keys: seq<int>, low: seq<int>, lowCells: seq<Cell>)
    requires |fine| == |keys| && Distinct(keys)
    requires |low| == |lowCells| && Distinct(low)
    requires forall j :: 0 <= j < |low| ==> Names(fine, keys, low[j], lowCells[j])
    ensures Sum(Ps(m, lowCells)) + Sum(Unselected(Ps(m, fine), keys, low)) == Sum(Ps(m, fine))
    ensures Sum(Qs(m, lowCells)) + Sum(Unselected(Qs(m, fine), keys, low)) == Sum(Qs(m, fine))
    ensures Sum(Terms(m, lowCells)) + Sum(Unselected(Terms(m, fine), keys, low)) == Sum(Terms(m, fine))
  {
    forall j | 0 <= j < |low|
      ensures Holds(Ps(m, fine), keys, low[j], Ps(m, lowCells)[j])
      ensures Holds(Qs(m, fine), keys, low[j], Qs(m, lowCells)[j])
      ensures Holds(Terms(m, fine), keys, low[j], Terms(m, lowCells)[j])
    {
      assert Names(fine, keys, low[j], lowCells[j]);
      var i :| 0 <= i < |keys| && keys[i] == low[j] && fine[i] == lowCells[j];
      assert Ps(m, fine)[i] == Ps(m, lowCells)[j];
      assert Qs(m, fine)[i] == Qs(m, lowCells)[j];
      assert Terms(m, fine)[i] == Terms(m, lowCells)[j];
    }
    SumSplit(Ps(m, fine), keys, low, Ps(m, lowCells));
    SumSplit(Qs(m, fine), keys, low, Qs(m, lowCells));
    SumSplit(Terms(m, fine), keys, low, Terms(m, lowCells));
  }

  /** No cell that is merged has a candidate zero under positive reference mass. */
  ghost predicate MergesNoZero(m: Math, fine: seq<Cell>, keys: seq<int>, low: seq<int>)
    requires |fine| == |keys|
  {
    forall i :: 0 <= i < |fine| && keys[i] !in low ==> !Hit(m, fine[i])
  }

  /** The merged cell's term is at most the terms it replaces. */
  lemma MergedTerm(m: Math, fine: seq<Cell>, keys: seq<int>, low: seq<int>)
    requires Lawful(m) && |fine| == |keys|
    requires MergesNoZero(m, fine, keys, low)
    ensures
      var p, q := Sum(Unselected(Ps(m, fine), keys, low)), Sum(Unselected(Qs(m, fine), keys, low));
      var merged := Cell(LogOf(m, p), LogOf(m, q));
      && p >= 0.0 && q >= 0.0
      && !Hit(m, merged)
      && TermLp(m, merged.p, merged.q).0 <= Sum(Unselected(Terms(m, fine), keys, low))
  {
    var ps, qs, ts := Unselected(Ps(m, fine), keys, low), Unselected(Qs(m, fine), keys, low),
        Unselected(Terms(m, fine), keys, low);
    UnselectedFacts(m, fine, keys, low);
    SumNonNegative(ps);
    SumNonNegative(qs);
    if Sum(ps) == 0.0 {
      SumZero(ts);
    } else if Sum(qs) == 0.0 {
      SumZero(ps);
      assert false;
    } else {
      MergedPositive(m, fine, keys, low);
    }
  }

  lemma MergedPositive(m: Math, fine: seq<Cell>, keys: seq<int>, low: seq<int>)
    requires Lawful(m) && |fine| == |keys|
    requires MergesNoZero(m, fine, keys, low)
    requires Sum(Unselected(Ps(m, fine), keys, low)) > 0.0 && Sum(Unselected(Qs(m, fine), keys, low)) > 0.0
    ensures
      var p, q := Sum(Unselected(Ps(m, fine), keys, low)), Sum(Unselected(Qs(m, fine), keys, low));
      var merged := Cell(LogOf(m, p), LogOf(m, q));
      !Hit(m, merged) && TermLp(m, merged.p, merged.q).0 <= Sum(Unselected(Terms(m, fine), keys, low))
  {
    var p, q := Sum(Unselected(Ps(m, fine), keys, low)), Sum(Unselected(Qs(m, fine), keys, low));
    assert p / q > 0.0;
    UnselectedTangent(m, fine, keys, low, p / q);
    MergedValue(m, Sum(Unselected(Terms(m, fine), keys, low)), p, q);
  }

  lemma UnselectedFacts(m: Math, fine: seq<Cell>, keys: seq<int>, low: seq<int>)
    requires Lawful(m) && |fine| == |keys|
    requires MergesNoZero(m, fine, keys, low)
    ensures
      var ps, qs, ts := Unselected(Ps(m, fine), keys, low), Unselected(Qs(m, fine), keys, low),
          Unselected(Terms(m, fine), keys, low);
      forall i :: 0 <= i < |fine| ==>
        ps[i] >= 0.0 && qs[i] >= 0.0 && (qs[i] == 0.0 ==> ps[i] == 0.0) && (ps[i] == 0.0 ==> ts[i] == 0.0)
  {
    var ps, qs, ts := Unselected(Ps(m, fine), keys, low), Unselected(Qs(m, fine), keys, low),
        Unselected(Terms(m, fine), keys, low);
    forall i | 0 <= i < |fine|
      ensures ps[i] >= 0.0 && qs[i] >= 0.0 && (qs[i] == 0.0 ==> ps[i] == 0.0) && (ps[i] == 0.0 ==> ts[i] == 0.0)
    {
      if keys[i] !in low {
        ProbBounds(m, fine[i].p);
        ProbBounds(m, fine[i].q);
        assert !Hit(m, fine[i]);
      }
    }
  }

  lemma UnselectedTangent(m: Math, fine: seq<Cell>, keys: seq<int>, low: seq<int>, r: real)
    requires Lawful(m) && |fine| == |keys| && r > 0.0
    requires MergesNoZero(m, fine, keys, low)
    ensures AboveLine(Sum(Unselected(Terms(m, fine), keys, low)), Sum(Unselected(Ps(m, fine), keys, low)),
                      Sum(Unselected(Qs(m, fine), keys, low)), m.ln(r) + 1.0, r)
  {
    var ps, qs, ts := Unselected(Ps(m, fine), keys, low), Unselected(Qs(m, fine), keys, low),
        Unselected(Terms(m, fine), keys, low);
    var a := m.ln(r) + 1.0;
    forall i | 0 <= i < |fine| ensures AboveLine(ts[i], ps[i], qs[i], a, r) {
      if keys[i] !in low {
        assert !Hit(m, fine[i]);
        TermTangent(m, fine[i], r);
      }
    }
    SumLinear(ts, ps, qs, a, r);
  }

  lemma MergedValue(m: Math, t: real, p: real, q: real)
    requires Lawful(m) && p > 0.0 && q > 0.0
    requires p / q > 0.0 ==> AboveLine(t, p, q, m.ln(p / q) + 1.0, p / q)
    ensures TermLp(m, LogOf(m, p), LogOf(m, q)).0 <= t
    ensures !Hit(m, Cell(LogOf(m, p), LogOf(m, q)))
  {
    LnOfQuotient(m, p, q);
    assert LnInvertsExp(m, p);
    var l := m.ln(p) - m.ln(q);
    assert (l + 1.0) * p == p * l + p;
    assert (p / q) * q == p;
  }

  /** Coarsening: keeping some cells of a partition and merging all the others into one rest cell gives a valid,
      unclamped divergence that is no larger, and floored exactly when a kept cell is. */
  lemma Coarsening(m: Math, fine: seq<Cell>, keys: seq<int>, low: seq<int>, lowCells: seq<Cell>, tol: real)
    requires Lawful(m)
    requires |fine| == |keys| && Distinct(keys)
    requires |low| == |lowCells| && Distinct(low)
    requires forall j :: 0 <= j < |low| ==> Names(fine, keys, low[j], lowCells[j])
    requires Sum(Ps(m, fine)) == 1.0 && Sum(Qs(m, fine)) == 1.0
    requires MergesNoZero(m, fine, keys, low)
    ensures
      var r := KlOfCells(m, lowCells, tol);
      r.Valid? && !r.clamped && (r.floored <==> AnyFloored(m, lowCells)) && r.kl <= Sum(Terms(m, fine))
  {
    PickedSums(m, fine, keys, low, lowCells);
    MergedTerm(m, fine, keys, low);
    LogRestMeaning(m, PSide(lowCells), tol);
    LogRestMeaning(m, QSide(lowCells), tol);
  }

  /** Kept cells are the partition's own, so they are floored only where it is. */
  lemma KeptFloored(m: Math, fine: seq<Cell>, keys: seq<int>, low: seq<int>, lowCells: seq<Cell>)
    requires |fine| == |keys| && |low| == |lowCells|
    requires forall j :: 0 <= j < |low| ==> Names(fine, keys, low[j], lowCells[j])
    ensures AnyFloored(m, lowCells) ==> AnyFloored(m, fine)
  {
    forall j | 0 <= j < |lowCells| && Hit(m, lowCells[j]) ensures AnyFloored(m, fine) {
      assert Names(fine, keys, low[j], lowCells[j]);
    }
  }

  // ---------------------------------------------------------------- error of a valid result

  /** The known cells together with the rest cell. */
  function AllCells(m: Math, cells: seq<Cell>, tol: real): seq<Cell> {
    var restP, restQ := LogRestOf(m, PSide(cells), tol), LogRestOf(m, QSide(cells), tol);
    if restP.Inconsistent? || restQ.Inconsistent? then cells else cells + [Cell(restP.lp, restQ.lp)]
  }

  /** How many cells had their candidate zero replaced by the floor. */
  function FlooredCount(m: Math, cells: seq<Cell>): (n: nat)
    ensures n == 0 <==> !AnyFloored(m, cells)
    ensures n <= |cells|
  {
    if |cells| == 0 then 0
    else
      var front := cells[..|cells| - 1];
      assert AnyFloored(m, cells) == (AnyFloored(m, front) || Hit(m, cells[|cells| - 1])) by {
        TermsSnoc(m, front, cells[|cells| - 1]);
        assert cells == front + [cells[|cells| - 1]];
      }
      FlooredCount(m, front) + if Hit(m, cells[|cells| - 1]) then 1 else 0
  }

  function MeasuredQs(m: Math, cells: seq<Cell>): (r: seq<real>)
    ensures |r| == |cells|
    ensures forall i :: 0 <= i < |r| ==> r[i] == MeasuredQ(m, cells[i])
  {
    seq(|cells|, i requires 0 <= i < |cells| => MeasuredQ(m, cells[i]))
  }

  /** The last cell's part of the masses and of the count. */
  lemma MeasuredStep(m: Math, cells: seq<Cell>)
    requires |cells| > 0
    ensures
      var n := |cells| - 1;
      && Sum(MeasuredQs(m, cells)) == Sum(MeasuredQs(m, cells[..n])) + MeasuredQ(m, cells[n])
      && Sum(Qs(m, cells)) == Sum(Qs(m, cells[..n])) + Prob(m, cells[n].q)
      && FlooredCount(m, cells) == FlooredCount(m, cells[..n]) + (if Hit(m, cells[n]) then 1 else 0)
  {
    hide FlooredCount, Sum, Hit, AnyFloored;
    FlooredStep(m, cells);
    var n := |cells| - 1;
    SumLast(MeasuredQs(m, cells));
    SumLast(Qs(m, cells));
    assert MeasuredQs(m, cells)[..n] == MeasuredQs(m, cells[..n]);
    assert Qs(m, cells)[..n] == Qs(m, cells[..n]);
  }

  lemma FlooredStep(m: Math, cells: seq<Cell>)
    requires |cells| > 0
    ensures FlooredCount(m, cells)
         == FlooredCount(m, cells[..|cells| - 1]) + (if Hit(m, cells[|cells| - 1]) then 1 else 0)
  {
    hide Hit, AnyFloored;
  }

  lemma FloorStep(n: nat)
    ensures (n + 1) as real * Q_FLOOR == n as real * Q_FLOOR + Q_FLOOR
  {
  }

  lemma {:induction false} MeasuredMass(m: Math, cells: seq<Cell>)
    requires Lawful(m)
    ensures Sum(MeasuredQs(m, cells)) == Sum(Qs(m, cells)) + FlooredCount(m, cells) as real * Q_FLOOR
  {
    if |cells| == 0 {
    } else {
      var n := |cells| - 1;
      MeasuredMass(m, cells[..n]);
      MeasuredStep(m, cells);
      FloorStep(FlooredCount(m, cells[..n]));
    }
  }

  lemma TermAboveMass(m: Math, c: Cell)
    requires Lawful(m)
    ensures TermLp(m, c.p, c.q).0 >= Prob(m, c.p) - MeasuredQ(m, c)
  {
    LnOfOne(m);
    TermTangent(m, c, 1.0);
  }

  lemma {:induction false} TermsAboveMasses(m: Math, cells: seq<Cell>)
    requires Lawful(m)
    ensures Sum(Terms(m, cells)) >= Sum(Ps(m, cells)) - Sum(MeasuredQs(m, cells))
  {
    if |cells| == 0 {
    } else {
      var n := |cells| - 1;
      TermsAboveMasses(m, cells[..n]);
      TermAboveMass(m, cells[n]);
      assert Terms(m, cells)[..n] == Terms(m, cells[..n]);
      assert MeasuredQs(m, cells)[..n] == MeasuredQs(m, cells[..n]);
      assert Ps(m, cells)[..n] == Ps(m, cells[..n]);
    }
  }

  /** Side masses of a valid result: exactly one unless that side was clamped, and then within the
      tolerance above one. */
  lemma FullMass(m: Math, lps: seq<Logprob>, tol: real)
    requires Lawful(m)
    requires LogRestOf(m, lps, tol).Rest?
    ensures
      var rest := LogRestOf(m, lps, tol);
      var mass := Sum(Probs(m, lps + [rest.lp]));
      if rest.clamped then 1.0 < mass <= 1.0 + tol else mass == 1.0
  {
    LogRestMeaning(m, lps, tol);
    var rest := LogRestOf(m, lps, tol);
    assert Probs(m, lps + [rest.lp]) == Probs(m, lps) + [Prob(m, rest.lp)];
    SumSnoc(Probs(m, lps), Prob(m, rest.lp));
    if Sum(Probs(m, lps)) <= 1.0 {
      ProbOfLog(m, 1.0 - Sum(Probs(m, lps)));
    }
  }

  lemma AllCellsMass(m: Math, cells: seq<Cell>, tol: real)
    requires Lawful(m) && KlOfCells(m, cells, tol).Valid?
    ensures
      var r, full := KlOfCells(m, cells, tol), AllCells(m, cells, tol);
      && r.kl == Sum(Terms(m, full)) && r.floored == AnyFloored(m, full)
      && Sum(Ps(m, full)) >= 1.0 && Sum(Qs(m, full)) >= 1.0
      && (r.clamped ==> Sum(Qs(m, full)) <= 1.0 + tol)
      && (!r.clamped ==> Sum(Ps(m, full)) == 1.0 && Sum(Qs(m, full)) == 1.0)
  {
    var restP, restQ := LogRestOf(m, PSide(cells), tol), LogRestOf(m, QSide(cells), tol);
    var full := AllCells(m, cells, tol);
    TermsSnoc(m, cells, Cell(restP.lp, restQ.lp));
    FullMass(m, PSide(cells), tol);
    FullMass(m, QSide(cells), tol);
    assert PSide(full) == PSide(cells) + [restP.lp];
    assert QSide(full) == QSide(cells) + [restQ.lp];
  }

  /** A valid coarse divergence is never below minus the tolerance (only when a mass was clamped)
      minus one floor per floored cell; it is non-negative when neither happened. */
  lemma BoundedError(m: Math, cells: seq<Cell>, tol: real)
    requires Lawful(m)
    requires KlOfCells(m, cells, tol).Valid?
    ensures
      var r := KlOfCells(m, cells, tol);
      var floors := FlooredCount(m, AllCells(m, cells, tol));
      && (r.floored <==> floors > 0)
      && r.kl >= -((if r.clamped then tol else 0.0) + floors as real * Q_FLOOR)
      && (!r.clamped && !r.floored ==> r.kl >= 0.0)
  {
    var full := AllCells(m, cells, tol);
    AllCellsMass(m, cells, tol);
    MeasuredMass(m, full);
    TermsAboveMasses(m, full);
  }

  // ---------------------------------------------------------------- full-vocabulary divergence

  datatype Divergence = Infinite | Finite(value: real)

  ghost predicate Distribution(d: seq<real>) {
    (forall i :: 0 <= i < |d| ==> d[i] >= 0.0) && Sum(d) == 1.0
  }

  function FullTerm(m: Math, p: real, q: real): real {
    if p <= 0.0 then 0.0 else p * (m.ln(p) - m.ln(q))
  }

  function FullTerms(m: Math, p: seq<real>, q: seq<real>): (r: seq<real>)
    requires |p| == |q|
    ensures |r| == |p|
    ensures forall i :: 0 <= i < |r| ==> r[i] == FullTerm(m, p[i], q[i])
  {
    seq(|p|, i requires 0 <= i < |p| => FullTerm(m, p[i], q[i]))
  }

  /** KL(P || Q) over the whole vocabulary; infinite where Q vanishes and P does not. */
  ghost function FullKl(m: Math, p: seq<real>, q: seq<real>): Divergence
    requires |p| == |q|
  {
    if exists i :: 0 <= i < |p| && p[i] > 0.0 && q[i] <= 0.0 then Infinite else Finite(Sum(FullTerms(m, p, q)))
  }

  /** It is finite exactly when the candidate gives no probability zero to a token that the reference can draw. */
  lemma FullKlIsFinite(m: Math, p: seq<real>, q: seq<real>)
    requires |p| == |q| && Distribution(p) && Distribution(q)
    ensures FullKl(m, p, q).Finite? <==> forall i :: 0 <= i < |p| && p[i] != 0.0 ==> q[i] != 0.0
  {
  }

  /** The top-K row reports the distribution's own logprobs. */
  ghost predicate RowAgrees(m: Math, ids: seq<int>, lps: seq<Entry>, d: seq<real>) {
    forall i :: 0 <= i < |ids| && RealAt(ids, lps, i) && lps[i].Known? ==>
        ids[i] < |d| && lps[i].lp == LogOf(m, d[ids[i]])
  }

  ghost predicate ExtraAgrees(m: Math, extra: Option<Extra>, p: seq<real>, q: seq<real>) {
    extra.Some? && extra.value.token >= 0 ==>
      && (extra.value.p.Known? ==> extra.value.token < |p| && extra.value.p.lp == LogOf(m, p[extra.value.token]))
      && (extra.value.q.Known? ==> extra.value.token < |q| && extra.value.q.lp == LogOf(m, q[extra.value.token]))
  }

  function VocabularyCells(m: Math, p: seq<real>, q: seq<real>): (r: seq<Cell>)
    requires |p| == |q|
    ensures |r| == |p|
    ensures forall i :: 0 <= i < |r| ==> r[i] == Cell(LogOf(m, p[i]), LogOf(m, q[i]))
  {
    seq(|p|, i requires 0 <= i < |p| => Cell(LogOf(m, p[i]), LogOf(m, q[i])))
  }

  function Iota(n: nat): (r: seq<int>)
    ensures |r| == n && forall i :: 0 <= i < n ==> r[i] == i
  {
    seq(n, i => i)
  }

  /** A coded term is the divergence's own term, against the floor where the candidate has no probability; only a
      positive reference probability against none is a hit. */
  lemma TermMeaning(m: Math, p: real, q: real)
    requires Lawful(m) && p >= 0.0 && q >= 0.0
    ensures TermLp(m, LogOf(m, p), LogOf(m, q)).0 == FullTerm(m, p, if q > 0.0 then q else Q_FLOOR)
    ensures TermLp(m, LogOf(m, p), LogOf(m, q)).1 <==> p > 0.0 && q == 0.0
  {
    assert LnInvertsExp(m, p);
    ExpPositive(m, m.ln(p));
  }

  lemma VocabularyCell(m: Math, p: real, q: real)
    requires Lawful(m) && p >= 0.0 && q >= 0.0 && (q <= 0.0 ==> p <= 0.0)
    ensures FullTerm(m, p, q) == TermLp(m, LogOf(m, p), LogOf(m, q)).0 && !Hit(m, Cell(LogOf(m, p), LogOf(m, q)))
  {
    assert LnInvertsExp(m, p);
  }

  lemma VocabularyMatches(m: Math, p: seq<real>, q: seq<real>)
    requires Lawful(m) && |p| == |q| && Distribution(p) && Distribution(q)
    ensures
      var fine := VocabularyCells(m, p, q);
      && Ps(m, fine) == p && Qs(m, fine) == q
      && (FullKl(m, p, q).Finite? ==> !AnyFloored(m, fine) && FullKl(m, p, q).value == Sum(Terms(m, fine)))
  {
    var fine := VocabularyCells(m, p, q);
    forall i | 0 <= i < |p|
      ensures Prob(m, fine[i].p) == p[i] && Prob(m, fine[i].q) == q[i]
    {
      ProbOfLog(m, p[i]);
      ProbOfLog(m, q[i]);
    }
    assert Ps(m, fine) == p && Qs(m, fine) == q;
    if FullKl(m, p, q).Finite? {
      forall i | 0 <= i < |p|
        ensures FullTerms(m, p, q)[i] == Terms(m, fine)[i] && !Hit(m, fine[i])
      {
        VocabularyCell(m, p[i], q[i]);
      }
      assert FullTerms(m, p, q) == Terms(m, fine);
    }
  }

  lemma RowValue(m: Math, ids: seq<int>, lps: seq<Entry>, d: seq<real>, k: int)
    requires RowAgrees(m, ids, lps, d)
    requires RowOf(ids, lps).Some? && k in RowOf(ids, lps).value.at
    ensures 0 <= k < |d| && RowOf(ids, lps).value.at[k] == LogOf(m, d[k])
  {
    var n := Min(|ids|, |lps|);
    GatheredMeaning(ids, lps, n);
    var i :| 0 <= i < n && LastAt(ids, lps, i, n, k) && lps[i] == Known(RowOf(ids, lps).value.at[k]);
    assert RealAt(ids, lps, i);
  }

  /** Every known cell of the coarse partition is the vocabulary's own cell for its token. */
  lemma KnownCellsAreVocabulary(m: Math, refIds: seq<int>, refLps: seq<Entry>, candIds: seq<int>, candLps: seq<Entry>,
                                extra: Option<Extra>, p: seq<real>, q: seq<real>)
    requires |p| == |q|
    requires RowAgrees(m, refIds, refLps, p) && RowAgrees(m, candIds, candLps, q) && ExtraAgrees(m, extra, p, q)
    requires RowOf(refIds, refLps).Some? && RowOf(candIds, candLps).Some?
    ensures
      var ref, cand := RowOf(refIds, refLps).value, RowOf(candIds, candLps).value;
      var low, cells := KnownTokens(ref, cand, extra), KnownCells(ref, cand, extra);
      && Distinct(low) && |low| == |cells|
      && forall j :: 0 <= j < |low| ==> Names(VocabularyCells(m, p, q), Iota(|p|), low[j], cells[j])
  {
    var ref, cand := RowOf(refIds, refLps).value, RowOf(candIds, candLps).value;
    var low, cells := KnownTokens(ref, cand, extra), KnownCells(ref, cand, extra);
    KnownTokensDistinct(ref, cand, extra);
    forall j | 0 <= j < |low|
      ensures Names(VocabularyCells(m, p, q), Iota(|p|), low[j], cells[j])
    {
      var k := low[j];
      if j < |Shared(ref.keys, cand.at)| {
        assert k in ref.keys;
        RowValue(m, refIds, refLps, p, k);
        RowValue(m, candIds, candLps, q, k);
      }
      assert Iota(|p|)[k] == k && VocabularyCells(m, p, q)[k] == cells[j];
    }
  }

  lemma KnownTokensDistinct(ref: Row, cand: Row, extra: Option<Extra>)
    requires RowOk(ref)
    ensures Distinct(KnownTokens(ref, cand, extra))
  {
    SharedDistinct(ref.keys, cand.at);
    var shared := Shared(ref.keys, cand.at);
    if UsesExtra(ref, cand, extra) {
      forall i | 0 <= i < |shared| ensures shared[i] != extra.value.token {
        var k := shared[i];
        assert k in ref.keys;
      }
    }
  }

  lemma MassWithinOne(m: Math, cells: seq<Cell>, tol: real)
    requires Sum(Ps(m, cells)) <= 1.0 && Sum(Qs(m, cells)) <= 1.0
    ensures KlOfCells(m, cells, tol).Valid? && !KlOfCells(m, cells, tol).clamped
  {
    LogRestMeaning(m, PSide(cells), tol);
    LogRestMeaning(m, QSide(cells), tol);
  }

  lemma KnownMassWithinOne(m: Math, low: seq<int>, cells: seq<Cell>, p: seq<real>, q: seq<real>)
    requires Lawful(m) && |p| == |q| && Distribution(p) && Distribution(q)
    requires Distinct(low) && |low| == |cells|
    requires forall j :: 0 <= j < |low| ==> Names(VocabularyCells(m, p, q), Iota(|p|), low[j], cells[j])
    ensures Sum(Ps(m, cells)) <= 1.0 && Sum(Qs(m, cells)) <= 1.0
  {
    hide Lawful, FullKl, Terms, Sum, Prob, TermLp;
    VocabularyMatches(m, p, q);
    PickedSums(m, VocabularyCells(m, p, q), Iota(|p|), low, cells);
    SumNonNegative(Unselected(p, Iota(|p|), low));
    SumNonNegative(Unselected(q, Iota(|p|), low));
  }

  lemma CellsBelowVocabulary(m: Math, low: seq<int>, cells: seq<Cell>, tol: real, p: seq<real>, q: seq<real>)
    requires Lawful(m) && |p| == |q| && Distribution(p) && Distribution(q)
    requires FullKl(m, p, q).Finite?
    requires Distinct(low) && |low| == |cells|
    requires forall j :: 0 <= j < |low| ==> Names(VocabularyCells(m, p, q), Iota(|p|), low[j], cells[j])
    ensures
      var r := KlOfCells(m, cells, tol);
      r.Valid? && !r.clamped && !r.floored && 0.0 <= r.kl <= FullKl(m, p, q).value
  {
    VocabularyMatches(m, p, q);
    Coarsening(m, VocabularyCells(m, p, q), Iota(|p|), low, cells, tol);
    KeptFloored(m, VocabularyCells(m, p, q), Iota(|p|), low, cells);
    BoundedError(m, cells, tol);
  }

  /** The lower bound. For any two full distributions that the rows and the actual-token scores
      agree with, the coarse divergence is defined exactly when both rows are usable, and then it is
      at most the full divergence; where that is finite it is also non-negative, unclamped and
      unfloored. */
  lemma CoarseIsLowerBound(m: Math, refIds: seq<int>, refLps: seq<Entry>, candIds: seq<int>, candLps: seq<Entry>,
                           extra: Option<Extra>, tol: real, p: seq<real>, q: seq<real>)
    requires Lawful(m) && |p| == |q| && Distribution(p) && Distribution(q)
    requires RowAgrees(m, refIds, refLps, p) && RowAgrees(m, candIds, candLps, q) && ExtraAgrees(m, extra, p, q)
    ensures
      var r := CoarseKlOf(m, refIds, refLps, candIds, candLps, extra, tol);
      && (r.Valid? <==> RowOf(refIds, refLps).Some? && RowOf(candIds, candLps).Some?)
      && (r.Valid? ==> !r.clamped)
      && (r.Valid? && FullKl(m, p, q).Finite? ==> !r.floored && 0.0 <= r.kl <= FullKl(m, p, q).value)
  {
    if RowOf(refIds, refLps).Some? && RowOf(candIds, candLps).Some? {
      var ref, cand := RowOf(refIds, refLps).value, RowOf(candIds, candLps).value;
      KnownCellsAreVocabulary(m, refIds, refLps, candIds, candLps, extra, p, q);
      var low, cells := KnownTokens(ref, cand, extra), KnownCells(ref, cand, extra);
      KnownMassWithinOne(m, low, cells, p, q);
      MassWithinOne(m, cells, tol);
      if FullKl(m, p, q).Finite? {
        CellsBelowVocabulary(m, low, cells, tol, p, q);
      }
    }
  }
}
