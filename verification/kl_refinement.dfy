/** The coarse divergence and the number K of entries per row (scripts/fidelity/metrics.py,
    scripts/fidelity/analyze_campaign.py): when cutting both rows to a prefix cannot raise the divergence, and rows on
    which it does. */
module KlRefinement {
  import opened Options
  import opened RealMath
  import opened Sums
  import opened CoarseKl
  import opened KlTheorems

  // ---------------------------------------------------------------- rows and their prefixes

  /** Repeated ids in a row carry the same score. */
  ghost predicate Consistent(ids: seq<int>, lps: seq<Entry>) {
    forall i, j :: RealAt(ids, lps, i) && RealAt(ids, lps, j) && ids[i] == ids[j] ==> lps[i] == lps[j]
  }

  /** The actual token's scores equal its entries wherever both rows hold it. */
  ghost predicate ExtraMatchesRows(ref: Row, cand: Row, extra: Option<Extra>) {
    extra.Some? && extra.value.token in ref.at && extra.value.token in cand.at
    && extra.value.p.Known? && extra.value.q.Known? ==>
      extra.value.p.lp == ref.at[extra.value.token] && extra.value.q.lp == cand.at[extra.value.token]
  }

  /** A shorter row holds a subset of the longer row's entries. */
  lemma TruncatedRow(ids: seq<int>, lps: seq<Entry>, k: nat)
    requires |ids| == |lps| && k <= |ids| && Consistent(ids, lps)
    requires RowOf(ids, lps).Some? && RowOf(ids[..k], lps[..k]).Some?
    ensures
      var low, high := RowOf(ids[..k], lps[..k]).value, RowOf(ids, lps).value;
      forall t :: t in low.at ==> t in high.at && low.at[t] == high.at[t]
  {
    var low, high := RowOf(ids[..k], lps[..k]).value, RowOf(ids, lps).value;
    GatheredMeaning(ids[..k], lps[..k], k);
    GatheredMeaning(ids, lps, |ids|);
    forall t | t in low.at ensures t in high.at && low.at[t] == high.at[t] {
      var i :| 0 <= i < k && LastAt(ids[..k], lps[..k], i, k, t) && lps[..k][i] == Known(low.at[t]);
      assert RealAt(ids, lps, i);
      var j :| 0 <= j < |ids| && LastAt(ids, lps, j, |ids|, t) && lps[j] == Known(high.at[t]);
    }
  }

  /** Smaller rows on both sides: every known cell of the small partition is one of the large one. */
  lemma SmallerPartition(refLow: Row, candLow: Row, refHigh: Row, candHigh: Row, extra: Option<Extra>)
    requires RowOk(refLow) && RowOk(refHigh) && RowOk(candLow) && RowOk(candHigh)
    requires forall t :: t in refLow.at ==> t in refHigh.at && refLow.at[t] == refHigh.at[t]
    requires forall t :: t in candLow.at ==> t in candHigh.at && candLow.at[t] == candHigh.at[t]
    requires ExtraMatchesRows(refHigh, candHigh, extra)
    ensures
      var low, lowCells := KnownTokens(refLow, candLow, extra), KnownCells(refLow, candLow, extra);
      var high, highCells := KnownTokens(refHigh, candHigh, extra), KnownCells(refHigh, candHigh, extra);
      forall j :: 0 <= j < |low| ==> low[j] >= 0 && Names(highCells, high, low[j], lowCells[j])
  {
    var low, lowCells := KnownTokens(refLow, candLow, extra), KnownCells(refLow, candLow, extra);
    var high, highCells := KnownTokens(refHigh, candHigh, extra), KnownCells(refHigh, candHigh, extra);
    var shared := Shared(refHigh.keys, candHigh.at);
    forall j | 0 <= j < |low|
      ensures low[j] >= 0 && Names(highCells, high, low[j], lowCells[j])
    {
      var t := low[j];
      if j < |Shared(refLow.keys, candLow.at)| {
        assert t in refLow.keys;
      }
      if t in refHigh.at && t in candHigh.at {
        assert t in refHigh.keys && t in shared;
        var i :| 0 <= i < |shared| && shared[i] == t;
        assert high[i] == t && highCells[i] == lowCells[j];
      } else {
        var i := |shared|;
        assert high[i] == t && highCells[i] == lowCells[j];
      }
    }
  }

  // ---------------------------------------------------------------- dropping known cells

  /** The known cells of a partition, whose masses are at most one, together with its rest. */
  function WithRest(m: Math, cells: seq<Cell>): seq<Cell> {
    cells + [Cell(LogOf(m, 1.0 - Sum(Ps(m, cells))), LogOf(m, 1.0 - Sum(Qs(m, cells))))]
  }

  lemma WithRestFacts(m: Math, cells: seq<Cell>, tol: real)
    requires Lawful(m) && Sum(Ps(m, cells)) <= 1.0 && Sum(Qs(m, cells)) <= 1.0
    ensures
      var r, full := KlOfCells(m, cells, tol), WithRest(m, cells);
      && r.Valid? && !r.clamped && r.kl == Sum(Terms(m, full)) && r.floored == AnyFloored(m, full)
      && Sum(Ps(m, full)) == 1.0 && Sum(Qs(m, full)) == 1.0
  {
    RestsOf(m, cells, tol);
    AllIsWithRest(m, cells, tol);
    hide Sum, LogRestOf, Terms, Ps, Qs, PSide, QSide, AnyFloored, LogOf, TermLp, AllCells, WithRest, Lawful;
    AllCellsMass(m, cells, tol);
  }

  lemma RestsOf(m: Math, cells: seq<Cell>, tol: real)
    ensures LogRestOf(m, PSide(cells), tol) == RestOfMass(m, Sum(Ps(m, cells)), tol)
    ensures LogRestOf(m, QSide(cells), tol) == RestOfMass(m, Sum(Qs(m, cells)), tol)
  {
    hide LogRestOf, Sum;
    LogRestMeaning(m, PSide(cells), tol);
    LogRestMeaning(m, QSide(cells), tol);
  }

  lemma AllIsWithRest(m: Math, cells: seq<Cell>, tol: real)
    requires Sum(Ps(m, cells)) <= 1.0 && Sum(Qs(m, cells)) <= 1.0
    ensures AllCells(m, cells, tol) == WithRest(m, cells)
  {
    hide LogRestOf, Sum, Ps, Qs, PSide, QSide, LogOf;
    RestsOf(m, cells, tol);
  }

  /** All of `high` is kept. */
  ghost predicate KeepsAll(high: seq<int>, low: seq<int>) { forall i :: 0 <= i < |high| ==> high[i] in low }

  /** No dropped cell has a candidate zero under positive reference mass; nor has the rest cell, which the dropped cells
      are merged with, if anything is dropped. */
  ghost predicate DropsNoZero(m: Math, high: seq<int>, cells: seq<Cell>, low: seq<int>)
    requires |high| == |cells|
  {
    && MergesNoZero(m, cells, high, low)
    && (KeepsAll(high, low) || Sum(Qs(m, cells)) < 1.0 || Sum(Ps(m, cells)) >= 1.0)
  }

  /** Keeping every cell changes nothing. */
  lemma KeepingAll(m: Math, high: seq<int>, highCells: seq<Cell>, low: seq<int>, lowCells: seq<Cell>, tol: real)
    requires |high| == |highCells| && Distinct(high) && |low| == |lowCells| && Distinct(low)
    requires forall j :: 0 <= j < |low| ==> Names(highCells, high, low[j], lowCells[j])
    requires KeepsAll(high, low)
    ensures KlOfCells(m, lowCells, tol).Valid? <==> KlOfCells(m, highCells, tol).Valid?
    ensures
      var r, s := KlOfCells(m, lowCells, tol), KlOfCells(m, highCells, tol);
      r.Valid? ==> r.kl == s.kl && r.clamped == s.clamped
  {
    PickedSums(m, highCells, high, low, lowCells);
    SumZero(Unselected(Ps(m, highCells), high, low));
    SumZero(Unselected(Qs(m, highCells), high, low));
    SumZero(Unselected(Terms(m, highCells), high, low));
    RestsOf(m, lowCells, tol);
    RestsOf(m, highCells, tol);
    hide LogRestOf, Sum, Terms, Ps, Qs;
  }

  /** Dropping known cells, whose mass then falls to the rest cell, cannot raise the divergence. */
  lemma FewerKnownCells(m: Math, high: seq<int>, highCells: seq<Cell>, low: seq<int>, lowCells: seq<Cell>, tol: real)
    requires Lawful(m)
    requires |high| == |highCells| && Distinct(high) && forall i :: 0 <= i < |high| ==> high[i] >= 0
    requires |low| == |lowCells| && Distinct(low)
    requires forall j :: 0 <= j < |low| ==> Names(highCells, high, low[j], lowCells[j])
    requires Sum(Ps(m, highCells)) <= 1.0 && Sum(Qs(m, highCells)) <= 1.0 && DropsNoZero(m, high, highCells, low)
    ensures
      var s, r := KlOfCells(m, highCells, tol), KlOfCells(m, lowCells, tol);
      && s.Valid? && !s.clamped && r.Valid? && !r.clamped && r.kl <= s.kl
  {
    WithRestFacts(m, highCells, tol);
    if KeepsAll(high, low) {
      KeepingAll(m, high, highCells, low, lowCells, tol);
    } else {
      var fine, keys := WithRest(m, highCells), high + [-1];
      forall j | 0 <= j < |low| ensures Names(fine, keys, low[j], lowCells[j]) {
        assert Names(highCells, high, low[j], lowCells[j]);
        var i :| 0 <= i < |high| && high[i] == low[j] && highCells[i] == lowCells[j];
        assert keys[i] == low[j] && fine[i] == lowCells[j];
      }
      forall i | 0 <= i < |fine| && keys[i] !in low ensures !Hit(m, fine[i]) {
        if i < |high| {
          assert !Hit(m, highCells[i]);
        }
      }
      Coarsening(m, fine, keys, low, lowCells, tol);
    }
  }

  // ---------------------------------------------------------------- rows

  /** Refinement in K, on the rows. Truncating both rows to a prefix cannot raise the coarse divergence when the
      known masses of the long rows are at most one and no token that is dropped, nor then the rest, has a candidate
      zero under positive reference mass. Floored cells that both partitions keep do no harm. */
  lemma RefinementInK(m: Math, refIds: seq<int>, refLps: seq<Entry>, candIds: seq<int>, candLps: seq<Entry>,
                      extra: Option<Extra>, tol: real, kr: nat, kc: nat)
    requires Lawful(m)
    requires |refIds| == |refLps| && kr <= |refIds| && Consistent(refIds, refLps)
    requires |candIds| == |candLps| && kc <= |candIds| && Consistent(candIds, candLps)
    requires RowOf(refIds, refLps).Some? && RowOf(candIds, candLps).Some?
    requires RowOf(refIds[..kr], refLps[..kr]).Some? && RowOf(candIds[..kc], candLps[..kc]).Some?
    requires ExtraMatchesRows(RowOf(refIds, refLps).value, RowOf(candIds, candLps).value, extra)
    requires
      var ref, cand := RowOf(refIds, refLps).value, RowOf(candIds, candLps).value;
      var tokens, cells := KnownTokens(ref, cand, extra), KnownCells(ref, cand, extra);
      && Sum(Ps(m, cells)) <= 1.0 && Sum(Qs(m, cells)) <= 1.0
      && DropsNoZero(m, tokens, cells,
                     KnownTokens(RowOf(refIds[..kr], refLps[..kr]).value, RowOf(candIds[..kc], candLps[..kc]).value,
                                 extra))
    ensures
      var high := CoarseKlOf(m, refIds, refLps, candIds, candLps, extra, tol);
      var low := CoarseKlOf(m, refIds[..kr], refLps[..kr], candIds[..kc], candLps[..kc], extra, tol);
      high.Valid? && !high.clamped && low.Valid? && !low.clamped && low.kl <= high.kl
  {
    var refHigh, candHigh := RowOf(refIds, refLps).value, RowOf(candIds, candLps).value;
    var refLow, candLow := RowOf(refIds[..kr], refLps[..kr]).value, RowOf(candIds[..kc], candLps[..kc]).value;
    TruncatedRow(refIds, refLps, kr);
    TruncatedRow(candIds, candLps, kc);
    SmallerPartition(refLow, candLow, refHigh, candHigh, extra);
    KnownTokensDistinct(refHigh, candHigh, extra);
    KnownTokensDistinct(refLow, candLow, extra);
    KnownTokensNatural(refHigh, candHigh, extra);
    FewerKnownCells(m, KnownTokens(refHigh, candHigh, extra), KnownCells(refHigh, candHigh, extra),
                    KnownTokens(refLow, candLow, extra), KnownCells(refLow, candLow, extra), tol);
  }

  lemma KnownTokensNatural(ref: Row, cand: Row, extra: Option<Extra>)
    requires RowOk(ref)
    ensures forall i :: 0 <= i < |KnownTokens(ref, cand, extra)| ==> KnownTokens(ref, cand, extra)[i] >= 0
  {
    var tokens := KnownTokens(ref, cand, extra);
    forall i | 0 <= i < |tokens| ensures tokens[i] >= 0 {
      var t := tokens[i];
      if i < |Shared(ref.keys, cand.at)| {
        assert t in ref.keys;
      }
    }
  }

  // ---------------------------------------------------------------- a floored and a clamped witness

  lemma LnIncreasing(m: Math, x: real, y: real)
    requires Lawful(m) && 0.0 < x < y
    ensures m.ln(x) < m.ln(y)
  {
    var ratio := x / y;
    LnOfQuotient(m, x, y);
    LnBelowTangent(m, ratio);
    BelowOne(x, y);
  }

  lemma BelowOne(x: real, y: real)
    requires 0.0 < x < y
    ensures x / y < 1.0
  {
    var r := x / y;
    var gap := 1.0 - r;
    assert r * y == x;
    assert gap * y == y - r * y;
    assert gap > 0.0;
  }

  const TINY := 0.0000000000001

  function HalfEntry(m: Math): Entry {
    Known(Fin(m.ln(0.5)))
  }

  lemma TwoEntryRow(a: Entry, b: Entry)
    requires a.Known? && b.Known?
    ensures RowOf([7, 9], [a, b]) == Some(Row([7, 9], map[7 := a.lp, 9 := b.lp]))
    ensures RowOf([7], [a]) == Some(Row([7], map[7 := a.lp]))
  {
    var one := Row([7], map[7 := a.lp]);
    assert Put(Row([], map[]), 7, a.lp) == one;
    assert Gathered([7, 9], [a, b], 0) == Some(Row([], map[]));
    assert Gathered([7, 9], [a, b], 1) == Some(one);
    assert Put(one, 9, b.lp) == Row([7, 9], map[7 := a.lp, 9 := b.lp]);
    assert Gathered([7, 9], [a, b], 2) == Some(Row([7, 9], map[7 := a.lp, 9 := b.lp]));
    assert Gathered([7], [a], 0) == Some(Row([], map[]));
    assert Gathered([7], [a], 1) == Some(one);
  }

  lemma TwoSharedCells(a: Logprob, b: Logprob, a': Logprob, b': Logprob)
    ensures KnownCells(Row([7, 9], map[7 := a, 9 := b]), Row([7, 9], map[7 := a', 9 := b']), None)
         == [Cell(a, a'), Cell(b, b')]
    ensures KnownCells(Row([7], map[7 := a]), Row([7], map[7 := a']), None) == [Cell(a, a')]
  {
    var one, two := map[7 := a'], map[7 := a', 9 := b'];
    assert [] + [7] == [7] && [7] + [9] == [7, 9];
    SharedSnoc([], 7, one);
    SharedSnoc([], 7, two);
    SharedSnoc([7], 9, two);
  }

  /** The documented claim that a larger K never lowers the value fails when a candidate zero is
      floored: the second token has reference probability 1e-13, below the floor of 1e-12 that stands
      in for its candidate zero, and the two-entry rows score below their one-entry prefix. */
  lemma RefinementFailsWhenFloored(m: Math)
    requires Lawful(m)
    ensures
      var ref := [HalfEntry(m), Known(Fin(m.ln(TINY)))];
      var cand := [HalfEntry(m), Known(NegInf)];
      var high := CoarseKlOf(m, [7, 9], ref, [7, 9], cand, None, CLAMP_TOL);
      var low := CoarseKlOf(m, [7, 9][..1], ref[..1], [7, 9][..1], cand[..1], None, CLAMP_TOL);
      && high.Valid? && !high.clamped && high.floored
      && low.Valid? && !low.clamped && !low.floored
      && high.kl < 0.0 && low.kl == 0.0
  {
    var half, tiny := Fin(m.ln(0.5)), Fin(m.ln(TINY));
    var ref := [HalfEntry(m), Known(tiny)];
    var cand := [HalfEntry(m), Known(NegInf)];
    TwoEntryRow(Known(half), Known(tiny));
    TwoEntryRow(Known(half), Known(NegInf));
    TwoSharedCells(half, tiny, half, NegInf);
    assert [7, 9][..1] == [7] && ref[..1] == [HalfEntry(m)] && cand[..1] == [HalfEntry(m)];
    FlooredCells(m);
  }

  lemma FlooredCells(m: Math)
    requires Lawful(m)
    ensures
      var half, tiny := Fin(m.ln(0.5)), Fin(m.ln(TINY));
      var high := KlOfCells(m, [Cell(half, half), Cell(tiny, NegInf)], CLAMP_TOL);
      var low := KlOfCells(m, [Cell(half, half)], CLAMP_TOL);
      && high.Valid? && !high.clamped && high.floored
      && low.Valid? && !low.clamped && !low.floored
      && high.kl < 0.0 && low.kl == 0.0
  {
    HighCells(m);
    LowCells(m);
  }

  lemma HighCells(m: Math)
    requires Lawful(m)
    ensures
      var half, tiny := Fin(m.ln(0.5)), Fin(m.ln(TINY));
      var high := KlOfCells(m, [Cell(half, half), Cell(tiny, NegInf)], CLAMP_TOL);
      high.Valid? && !high.clamped && high.floored && high.kl < 0.0
  {
    var half, tiny := Fin(m.ln(0.5)), Fin(m.ln(TINY));
    HalfCell(m);
    var high := [Cell(half, half), Cell(tiny, NegInf)];
    assert LnInvertsExp(m, 0.5) && LnInvertsExp(m, TINY);
    assert Probs(m, PSide(high)) == [0.5, TINY] && Probs(m, QSide(high)) == [0.5, 0.0];
    SumOfTwo(0.5, TINY);
    SumOfTwo(0.5, 0.0);
    LogRestMeaning(m, PSide(high), CLAMP_TOL);
    LogRestMeaning(m, QSide(high), CLAMP_TOL);
    FlooredTerms(m);
  }

  lemma LowCells(m: Math)
    requires Lawful(m)
    ensures
      var half := Fin(m.ln(0.5));
      var low := KlOfCells(m, [Cell(half, half)], CLAMP_TOL);
      low.Valid? && !low.clamped && !low.floored && low.kl == 0.0
  {
    var half := Fin(m.ln(0.5));
    HalfCell(m);
    var low := [Cell(half, half)];
    assert LnInvertsExp(m, 0.5);
    assert Probs(m, PSide(low)) == [0.5] && Probs(m, QSide(low)) == [0.5];
    LogRestMeaning(m, PSide(low), CLAMP_TOL);
    LogRestMeaning(m, QSide(low), CLAMP_TOL);
    FlooredTerms(m);
  }

  lemma HalfCell(m: Math)
    requires Lawful(m)
    ensures TermLp(m, Fin(m.ln(0.5)), Fin(m.ln(0.5))) == (0.0, false)
  {
  }

  lemma FlooredTerms(m: Math)
    requires Lawful(m)
    ensures
      var half, tiny := Fin(m.ln(0.5)), Fin(m.ln(TINY));
      && Sum(Terms(m, [Cell(half, half)])) == 0.0 && !AnyFloored(m, [Cell(half, half)])
      && Sum(Terms(m, [Cell(half, half), Cell(tiny, NegInf)])) < 0.0
      && AnyFloored(m, [Cell(half, half), Cell(tiny, NegInf)])
      && TermLp(m, LogOf(m, 1.0 - (0.5 + TINY)), half).0 < 0.0
  {
    var half, tiny := Fin(m.ln(0.5)), Fin(m.ln(TINY));
    var first, second := Cell(half, half), Cell(tiny, NegInf);
    HalfCell(m);
    TinyTerm(m);
    assert Terms(m, [first]) == [0.0];
    assert Terms(m, [first, second]) == [0.0, TermLp(m, tiny, NegInf).0];
    SumOfTwo(0.0, TermLp(m, tiny, NegInf).0);
    assert [first, second][1] == second && Hit(m, second);
    RestTerm(m);
  }

  lemma TinyTerm(m: Math)
    requires Lawful(m)
    ensures TermLp(m, Fin(m.ln(TINY)), NegInf).0 < 0.0 && TermLp(m, Fin(m.ln(TINY)), NegInf).1
  {
    assert LnInvertsExp(m, TINY);
    LnIncreasing(m, TINY, Q_FLOOR);
    Negative(TINY, m.ln(TINY) - m.ln(Q_FLOOR));
  }

  lemma RestTerm(m: Math)
    requires Lawful(m)
    ensures TermLp(m, LogOf(m, 1.0 - (0.5 + TINY)), Fin(m.ln(0.5))).0 < 0.0
  {
    var rest := 1.0 - (0.5 + TINY);
    assert LnInvertsExp(m, rest);
    LnIncreasing(m, rest, 0.5);
    Negative(rest, m.ln(rest) - m.ln(0.5));
  }

  lemma Negative(p: real, d: real)
    requires p > 0.0 && d < 0.0
    ensures p * d < 0.0
  {
  }

  lemma SumOfTwo(x: real, y: real)
    ensures Sum([x]) == x && Sum([x, y]) == x + y
  {
    assert [x, y][..1] == [x] && [x][..0] == [];
  }

  // ---------------------------------------------------------------- a clamped reference mass

  function ScoreOf(m: Math, x: real): Entry { Known(Fin(m.ln(x))) }

  lemma CellSums(m: Math, first: Cell, second: Cell)
    ensures Sum(Ps(m, [first])) == Prob(m, first.p)
            && Sum(Ps(m, [first, second])) == Prob(m, first.p) + Prob(m, second.p)
    ensures Sum(Qs(m, [first])) == Prob(m, first.q)
            && Sum(Qs(m, [first, second])) == Prob(m, first.q) + Prob(m, second.q)
    ensures
      var t, u := TermLp(m, first.p, first.q).0, TermLp(m, second.p, second.q).0;
      Sum(Terms(m, [first])) == t && Sum(Terms(m, [first, second])) == t + u
  {
    SumOfTwo(Prob(m, first.p), Prob(m, second.p));
    SumOfTwo(Prob(m, first.q), Prob(m, second.q));
    SumOfTwo(TermLp(m, first.p, first.q).0, TermLp(m, second.p, second.q).0);
    assert Ps(m, [first]) == [Prob(m, first.p)] && Ps(m, [first, second]) == [Prob(m, first.p), Prob(m, second.p)];
    assert Qs(m, [first]) == [Prob(m, first.q)] && Qs(m, [first, second]) == [Prob(m, first.q), Prob(m, second.q)];
    assert Terms(m, [first]) == [TermLp(m, first.p, first.q).0];
    assert Terms(m, [first, second]) == [TermLp(m, first.p, first.q).0, TermLp(m, second.p, second.q).0];
  }

  /** The divergence of two cells whose reference mass is above one and whose candidate mass is one. */
  lemma ClampedPair(m: Math, first: Cell, second: Cell, tol: real)
    requires first.q.Fin? && second.q.Fin?
    requires 1.0 < Prob(m, first.p) + Prob(m, second.p) <= 1.0 + tol && Prob(m, first.q) + Prob(m, second.q) == 1.0
    ensures KlOfCells(m, [first, second], tol)
         == Valid(TermLp(m, first.p, first.q).0 + TermLp(m, second.p, second.q).0, true, false)
  {
    var cells := [first, second];
    CellSums(m, first, second);
    RestsOf(m, cells, tol);
    hide LogRestOf, Sum, Terms, Ps, Qs, Prob;
    assert forall i :: 0 <= i < |cells| ==> !Hit(m, cells[i]);
  }

  /** The divergence of one cell and the rest. */
  lemma CellAndRest(m: Math, c: Cell, tol: real)
    requires c.q.Fin? && Prob(m, c.p) < 1.0 && Prob(m, c.q) < 1.0
    ensures
      var rest := Cell(Fin(m.ln(1.0 - Prob(m, c.p))), Fin(m.ln(1.0 - Prob(m, c.q))));
      KlOfCells(m, [c], tol) == Valid(TermLp(m, c.p, c.q).0 + TermLp(m, rest.p, rest.q).0, false, false)
  {
    var cells := [c];
    CellSums(m, c, c);
    RestsOf(m, cells, tol);
    hide LogRestOf, Sum, Terms, Ps, Qs, Prob;
    assert forall i :: 0 <= i < |cells| ==> !Hit(m, cells[i]);
  }

  /** Between 0.1 and 0.2 a larger reference probability has a smaller term against 0.9. */
  lemma TermFalls(m: Math, c: real)
    requires Lawful(m) && 0.0 < c < 0.1
    ensures TermLp(m, Fin(m.ln(0.1 + c)), Fin(m.ln(0.9))).0 < TermLp(m, Fin(m.ln(0.1)), Fin(m.ln(0.9))).0
  {
    var s := 0.1 + c;
    assert LnInvertsExp(m, 0.1) && LnInvertsExp(m, s);
    var l := LogBelowMinusOne(m, s);
    DivergenceTangent(m, 0.1, 0.9, s / 0.9);
    hide Lawful;
    FallStep(s, c, l, s / 0.9);
  }

  lemma LogBelowMinusOne(m: Math, s: real) returns (l: real)
    requires Lawful(m) && 0.1 < s < 0.2
    ensures l == m.ln(s / 0.9) == m.ln(s) - m.ln(0.9) && l < -1.0
  {
    var third, twoThirds := 1.0 / 3.0, 2.0 / 3.0;
    l := m.ln(s / 0.9);
    LnOfQuotient(m, s, 0.9);
    LnIncreasing(m, s / 0.9, third * twoThirds);
    LnOfProduct(m, third, twoThirds);
    LnBelowTangent(m, third);
    LnBelowTangent(m, twoThirds);
  }

  lemma FallStep(s: real, c: real, l: real, r: real)
    requires 0.0 < c && s == 0.1 + c && l < -1.0 && r == s / 0.9
    ensures s * l < 0.1 * (l + 1.0) - r * 0.9
  {
    assert r * 0.9 == s;
    Negative(c, l + 1.0);
    assert c * (l + 1.0) == c * l + c;
    assert s * l == 0.1 * l + c * l;
  }

  /** The claim also fails, without any floor, as soon as the reference mass is above one by any `c` that is clamped:
      the second token is dropped, whose reference probability exceeds what the first one leaves by `c`. */
  lemma RefinementFailsWhenClamped(m: Math, c: real, tol: real)
    requires Lawful(m) && 0.0 < c < 0.1 && c <= tol
    ensures
      var ref := [ScoreOf(m, 0.9), ScoreOf(m, 0.1 + c)];
      var cand := [ScoreOf(m, 0.1), ScoreOf(m, 0.9)];
      var high := CoarseKlOf(m, [7, 9], ref, [7, 9], cand, None, tol);
      var low := CoarseKlOf(m, [7, 9][..1], ref[..1], [7, 9][..1], cand[..1], None, tol);
      && high.Valid? && high.clamped && !high.floored
      && low.Valid? && !low.clamped && !low.floored
      && high.kl < low.kl
  {
    var ref := [ScoreOf(m, 0.9), ScoreOf(m, 0.1 + c)];
    var cand := [ScoreOf(m, 0.1), ScoreOf(m, 0.9)];
    TwoEntryRow(ref[0], ref[1]);
    TwoEntryRow(cand[0], cand[1]);
    TwoSharedCells(ref[0].lp, ref[1].lp, cand[0].lp, cand[1].lp);
    assert [7, 9][..1] == [7] && ref[..1] == [ref[0]] && cand[..1] == [cand[0]];
    ClampedCells(m, c, tol);
  }

  lemma ClampedCells(m: Math, c: real, tol: real)
    requires Lawful(m) && 0.0 < c < 0.1 && c <= tol
    ensures
      var first, second := Cell(Fin(m.ln(0.9)), Fin(m.ln(0.1))), Cell(Fin(m.ln(0.1 + c)), Fin(m.ln(0.9)));
      var high, low := KlOfCells(m, [first, second], tol), KlOfCells(m, [first], tol);
      && high.Valid? && high.clamped && !high.floored
      && low.Valid? && !low.clamped && !low.floored
      && high.kl < low.kl
  {
    var first, second := Cell(Fin(m.ln(0.9)), Fin(m.ln(0.1))), Cell(Fin(m.ln(0.1 + c)), Fin(m.ln(0.9)));
    assert LnInvertsExp(m, 0.9) && LnInvertsExp(m, 0.1) && LnInvertsExp(m, 0.1 + c);
    ClampedPair(m, first, second, tol);
    CellAndRest(m, first, tol);
    assert 1.0 - 0.9 == 0.1 && 1.0 - 0.1 == 0.9;
    TermFalls(m, c);
  }
}
