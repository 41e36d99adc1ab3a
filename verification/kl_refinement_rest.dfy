/** The converse of refinement in K for the rest: when the known cells have all of the candidate's mass, or more of
    it within the tolerance, dropping any token makes the longer rows score lower for some scores. */
module KlRefinementRest {
  import opened Options
  import opened RealMath
  import opened Sums
  import opened CoarseKl
  import opened NumpyKl
  import opened KlTheorems
  import opened KlRefinement
  import opened KlRefinementExact

  // ---------------------------------------------------------------- masses that leave nothing

  /** The known tokens have all of the candidate's mass, but not all of the reference's. */
  ghost predicate Exhausted(m: Math, cut: Cut, lps: Scores) {
    exists p, q :: Masses(m, cut, lps, p, q) && p < 1.0 && q == 1.0
  }

  /** The known tokens have more than all of the candidate's mass, within the tolerance. */
  ghost predicate Overfull(m: Math, cut: Cut, lps: Scores, tol: real) {
    exists p, q :: Masses(m, cut, lps, p, q) && p <= 1.0 + tol && 1.0 < q <= 1.0 + tol
  }

  // ---------------------------------------------------------------- counting known tokens

  lemma {:induction false} DistinctSize(tokens: seq<int>, s: set<int>)
    requires Distinct(tokens) && forall t :: t in tokens <==> t in s
    ensures |tokens| == |s|
  {
    if |tokens| == 0 {
      assert forall t :: t in s ==> t in tokens;
      assert s == {};
    } else {
      var k := |tokens| - 1;
      var front, last := tokens[..k], tokens[k];
      assert tokens == front + [last];
      assert last in tokens;
      forall t ensures t in front <==> t in s - {last} {
        assert t in front ==> t in tokens;
      }
      DistinctSize(front, s - {last});
    }
  }

  function KnownSet(cut: Cut): set<int> {
    (set i | 0 <= i < |cut.refIds| && KnownIn(cut, cut.refIds[i]) :: cut.refIds[i])
    + (match cut.actual
       case Some(t) => if t >= 0 then {t} else {}
       case None => {})
  }

  lemma KnownSetMeaning(cut: Cut, t: int)
    ensures t in KnownSet(cut) <==> KnownIn(cut, t)
  {
    if t in cut.refIds {
      var i :| 0 <= i < |cut.refIds| && cut.refIds[i] == t;
    }
  }

  lemma {:induction false} NoneCounted(tokens: seq<int>)
    ensures CountIn(tokens, {}) == 0
  {
    if |tokens| == 0 {
    } else {
      NoneCounted(tokens[..|tokens| - 1]);
    }
  }

  lemma {:induction false} AllCounted(tokens: seq<int>, s: set<int>)
    requires forall i :: 0 <= i < |tokens| ==> tokens[i] in s
    ensures CountIn(tokens, s) == |tokens|
  {
    if |tokens| == 0 {
    } else {
      AllCounted(tokens[..|tokens| - 1], s);
    }
  }

  lemma FewerTokens(high: seq<int>, low: seq<int>, t: int)
    requires Distinct(high) && Distinct(low) && forall j :: 0 <= j < |low| ==> low[j] in high
    requires t in high && t !in low
    ensures |low| < |high|
  {
    var s := set x | x in high;
    AllCounted(high, s);
    AllCounted(low, s);
    FewerMarked(high, low, s, t);
  }

  // ---------------------------------------------------------------- divergences of equal cells

  /** Equal cells with candidate mass left for the rest: not below zero. */
  lemma OpenCells(m: Math, cells: seq<Cell>, tol: real)
    requires Lawful(m) && Sum(Ps(m, cells)) <= 1.0 && Sum(Qs(m, cells)) < 1.0
    requires forall i :: 0 <= i < |cells| ==> cells[i].q.Fin?
    ensures KlOfCells(m, cells, tol).Valid? && KlOfCells(m, cells, tol).kl >= 0.0
  {
    RestsOf(m, cells, tol);
    forall i | 0 <= i < |cells| ensures !Hit(m, cells[i]) {
    }
    BoundedError(m, cells, tol);
  }

  /** Cells that have all of the candidate's mass and all but `d` of the reference's. */
  lemma ExhaustedCells(m: Math, cells: seq<Cell>, d: real, tol: real)
    requires Lawful(m) && 0.0 < d < 1.0 && Sum(Ps(m, cells)) == 1.0 - d && Sum(Qs(m, cells)) == 1.0
    ensures
      var r := KlOfCells(m, cells, tol);
      r.Valid? && r.kl == Sum(Terms(m, cells)) + TermLp(m, Fin(m.ln(d)), NegInf).0
  {
    RestsOf(m, cells, tol);
    assert 1.0 - (1.0 - d) == d;
  }

  /** Cells that have all of the reference's mass and, within the tolerance, more than all of the candidate's. */
  lemma OverfullCells(m: Math, cells: seq<Cell>, tol: real)
    requires Sum(Ps(m, cells)) == 1.0 && 1.0 < Sum(Qs(m, cells)) <= 1.0 + tol
    ensures KlOfCells(m, cells, tol).Valid? && KlOfCells(m, cells, tol).kl == Sum(Terms(m, cells))
  {
    RestsOf(m, cells, tol);
  }

  /** A candidate share `y` of `n` equal ones, and a reference share that leaves `d` over. */
  lemma Shares(m: Math, n: nat, d: real) returns (x: real, y: real)
    requires Lawful(m) && n > 0 && 0.0 < d < 1.0
    ensures 0.0 < x < y && Times(n, x) == 1.0 - d && Times(n, y) == 1.0
    ensures TermLp(m, Fin(m.ln(x)), Fin(m.ln(y))).0 <= 0.0
  {
    x, y := (1.0 - d) / n as real, 1.0 / n as real;
    TimesIsProduct(n, x);
    TimesIsProduct(n, y);
    ShareOrder(n as real, x, y, d);
    LargerShare(m, x, y);
  }

  /** A reference share of `n` equal ones and a candidate share that is larger, by so little that `n - 1` such shares
      leave mass over. */
  lemma OverfullShares(m: Math, n: nat, tol: real) returns (x: real, y: real)
    requires Lawful(m) && n > 0 && tol > 0.0
    ensures 0.0 < x < y && Times(n, x) == 1.0 && 1.0 < Times(n, y) <= 1.0 + tol && Times(n - 1, y) < 1.0
    ensures TermLp(m, Fin(m.ln(x)), Fin(m.ln(y))).0 < 0.0
  {
    hide Lawful, TermLp, Times;
    var c;
    c, x, y := OverfullOrder(n as real, tol);
    TimesIsProduct(n, x);
    TimesIsProduct(n, y);
    TimesStep(n - 1, y);
    LargerShare(m, x, y);
  }

  lemma LargerShare(m: Math, x: real, y: real)
    requires Lawful(m) && 0.0 < x < y
    ensures TermLp(m, Fin(m.ln(x)), Fin(m.ln(y))).0 < 0.0
  {
    LnIncreasing(m, x, y);
    ProbOfFin(m, x);
    Negative(x, m.ln(x) - m.ln(y));
  }

  lemma OverfullOrder(n: real, tol: real) returns (c: real, x: real, y: real)
    requires n > 0.0 && tol > 0.0
    ensures 0.0 < c <= tol && n * x == 1.0 && n * y == 1.0 + c && 0.0 < x < y && n * y - y < 1.0
  {
    x := 1.0 / n;
    assert n * x == 1.0;
    assert x > 0.0;
    c := if x < tol then x else tol;
    var e := c / n;
    assert n * e == c;
    assert e > 0.0;
    y := x + e;
    Distribute(n, x, e);
  }

  lemma ShareOrder(n: real, x: real, y: real, d: real)
    requires n > 0.0 && 0.0 < d < 1.0 && x == (1.0 - d) / n && y == 1.0 / n
    ensures n * x == 1.0 - d && n * y == 1.0 && 0.0 < x < y
  {
    assert n * x == 1.0 - d && n * y == 1.0;
    var gap := y - x;
    Distribute(n, x, gap);
    assert x + gap == y;
  }

  lemma NoTimes(x: real)
    ensures Times(0, x) == 0.0
  {
  }

  lemma AllAlike(m: Math, tokens: seq<int>, cells: seq<Cell>, x: real, y: real)
    requires Lawful(m) && x > 0.0 && y > 0.0
    requires TwoKinds(tokens, cells, {}, Cell(Fin(m.ln(x)), Fin(m.ln(y))), Cell(Fin(m.ln(x)), Fin(m.ln(y))))
    ensures Sum(Ps(m, cells)) == Times(|tokens|, x) && Sum(Qs(m, cells)) == Times(|tokens|, y)
    ensures Sum(Terms(m, cells)) == Times(|tokens|, TermLp(m, Fin(m.ln(x)), Fin(m.ln(y))).0)
    ensures forall i :: 0 <= i < |cells| ==> cells[i].q.Fin?
  {
    hide Sum, Ps, Qs, Terms, TermLp, Prob, Lawful, Times, CountIn;
    ProbOfFin(m, x);
    ProbOfFin(m, y);
    NoneCounted(tokens);
    KindSums(m, tokens, cells, {}, Cell(Fin(m.ln(x)), Fin(m.ln(y))), Cell(Fin(m.ln(x)), Fin(m.ln(y))));
    NoTimes(Prob(m, Fin(m.ln(x))));
    NoTimes(Prob(m, Fin(m.ln(y))));
    NoTimes(TermLp(m, Fin(m.ln(x)), Fin(m.ln(y))).0);
  }

  /** A reference probability below one that counts negatively when floored. */
  lemma SmallLoss(m: Math) returns (d: real)
    requires Lawful(m)
    ensures 0.0 < d < 1.0 && TermLp(m, Fin(m.ln(d)), NegInf).0 < 0.0
  {
    hide Lawful, TermLp;
    d := SmallProbability(m, 1);
    assert Times(1, d) == d && Times(2, d) == d + d;
  }

  // ---------------------------------------------------------------- rows of equal cells

  /** `n` cells, each with reference share `x` and candidate share `y`. */
  ghost predicate Uniform(m: Math, cells: seq<Cell>, n: nat, x: real, y: real) {
    && Sum(Ps(m, cells)) == Times(n, x) && Sum(Qs(m, cells)) == Times(n, y)
    && Sum(Terms(m, cells)) == Times(n, TermLp(m, Fin(m.ln(x)), Fin(m.ln(y))).0)
  }

  /** Fewer tokens than are shared, of equal cells that leave candidate mass: not below zero. */
  lemma FewEqualCells(m: Math, high: seq<int>, low: seq<int>, cells: seq<Cell>, t: int, n: nat, x: real, y: real,
                      tol: real)
    requires Lawful(m) && x > 0.0 && y > 0.0
    requires TwoKinds(low, cells, {}, Cell(Fin(m.ln(x)), Fin(m.ln(y))), Cell(Fin(m.ln(x)), Fin(m.ln(y))))
    requires Distinct(high) && Distinct(low) && |high| == n && t in high && t !in low
    requires forall j :: 0 <= j < |low| ==> low[j] in high
    requires n > 0 ==> Times(n - 1, x) <= 1.0 && Times(n - 1, y) < 1.0
    ensures KlOfCells(m, cells, tol).Valid? && KlOfCells(m, cells, tol).kl >= 0.0
  {
    hide KlOfCells, TermLp, Terms, Ps, Qs, Sum, Lawful, TwoKinds, Times;
    FewerTokens(high, low, t);
    AllAlike(m, low, cells, x, y);
    TimesGrows(|low|, n - 1, x);
    TimesGrows(|low|, n - 1, y);
    OpenCells(m, cells, tol);
  }

  /** Every known token gets reference share `x` and candidate share `y`. */
  lemma EqualScores(m: Math, cut: Cut, t: int, x: real, y: real, tol: real) returns (lps: Scores)
    requires Lawful(m) && Usable(cut) && Dropped(cut, t) && x > 0.0 && y > 0.0
    requires
      var n := |KnownSet(cut)|;
      n > 0 ==> Times(n - 1, x) <= 1.0 && Times(n - 1, y) < 1.0
    ensures ZerosAt(cut, lps, {}) && RowsExist(cut, lps) && Uniform(m, Cells(cut, lps), |KnownSet(cut)|, x, y)
    ensures
      var low := KlAt(m, Short(cut), ShortScores(cut, lps), tol);
      low.Valid? && low.kl >= 0.0
  {
    hide CellsOf, KlOfCells, Cells, Dropped, Sum, Ps, Qs, TermLp, Lawful, KnownSet, Times, Uniform, KindScores,
         RowsExist;
    var b := Cell(Fin(m.ln(x)), Fin(m.ln(y)));
    lps := KindScores(cut, {}, b, b);
    KindZeros(cut, {}, b, b, {});
    CutCells(cut, {}, b, b);
    EqualRows(m, cut, lps, t, x, y, tol);
  }

  lemma EqualRows(m: Math, cut: Cut, lps: Scores, t: int, x: real, y: real, tol: real)
    requires Lawful(m) && Proper(cut) && Scored(cut, lps) && Dropped(cut, t) && x > 0.0 && y > 0.0
    requires
      var b := Cell(Fin(m.ln(x)), Fin(m.ln(y)));
      CellsOf(cut, lps, {}, b, b) && CellsOf(Short(cut), ShortScores(cut, lps), {}, b, b)
    requires
      var n := |KnownSet(cut)|;
      n > 0 ==> Times(n - 1, x) <= 1.0 && Times(n - 1, y) < 1.0
    ensures RowsExist(cut, lps) && Uniform(m, Cells(cut, lps), |KnownSet(cut)|, x, y)
    ensures
      var low := KlAt(m, Short(cut), ShortScores(cut, lps), tol);
      low.Valid? && low.kl >= 0.0
  {
    hide KlOfCells, TermLp, Terms, Ps, Qs, Sum, KnownTokens, KnownCells, Lawful, Times, KnownSet, Dropped;
    var tokens, few := Tokens(cut, lps), Tokens(Short(cut), ShortScores(cut, lps));
    forall u ensures u in tokens <==> u in KnownSet(cut) {
      KnownSetMeaning(cut, u);
    }
    DistinctSize(tokens, KnownSet(cut));
    AllAlike(m, tokens, Cells(cut, lps), x, y);
    DroppedIs(cut, t);
    forall j | 0 <= j < |few| ensures few[j] in tokens {
      var u := few[j];
      assert u in few;
      KeptIsKnown(cut, u);
    }
    FewEqualCells(m, tokens, few, Cells(Short(cut), ShortScores(cut, lps)), t, |tokens|, x, y, tol);
  }

  lemma KnownTokenCounts(cut: Cut, t: int)
    requires Proper(cut) && Dropped(cut, t)
    ensures |KnownSet(cut)| > 0
  {
    KnownSetMeaning(cut, t);
  }

  // ---------------------------------------------------------------- scores that break the claim

  /** Scores without any candidate zero that break the claim when a token is dropped beside an exhausted rest. */
  lemma ExhaustedBreaks(m: Math, cut: Cut, t: int, tol: real) returns (lps: Scores)
    requires Lawful(m) && Usable(cut) && Dropped(cut, t)
    ensures ZerosAt(cut, lps, {}) && Exhausted(m, cut, lps) && !Refines(m, cut, lps, tol)
  {
    hide KlOfCells, Dropped, Sum, Ps, Qs, Terms, TermLp, Lawful, KnownSet, Times, HasReal, Cells, RowsExist;
    KnownTokenCounts(cut, t);
    var n := |KnownSet(cut)|;
    var d := SmallLoss(m);
    var x, y := Shares(m, n, d);
    var w := TermLp(m, Fin(m.ln(x)), Fin(m.ln(y))).0;
    OneLess(n, x);
    OneLess(n, y);
    TimesGrows(0, n, w);
    NoTimes(w);
    lps := EqualScores(m, cut, t, x, y, tol);
    ExhaustedCells(m, Cells(cut, lps), d, tol);
    KlOfRows(m, cut, lps, tol);
    assert Masses(m, cut, lps, 1.0 - d, 1.0);
  }

  /** Scores without any candidate zero that break the claim when a token is dropped and the candidate's mass is
      clamped. */
  lemma OverfullBreaks(m: Math, cut: Cut, t: int, tol: real) returns (lps: Scores)
    requires Lawful(m) && Usable(cut) && Dropped(cut, t) && tol > 0.0
    ensures ZerosAt(cut, lps, {}) && Overfull(m, cut, lps, tol) && !Refines(m, cut, lps, tol)
  {
    hide KlOfCells, Dropped, Sum, Ps, Qs, Terms, TermLp, Lawful, KnownSet, Times, HasReal, Cells, RowsExist;
    KnownTokenCounts(cut, t);
    hide Uniform;
    var n := |KnownSet(cut)|;
    var x, y := OverfullChoice(m, n, tol);
    lps := EqualScores(m, cut, t, x, y, tol);
    var mass := OverfullValue(m, Cells(cut, lps), n, x, y, tol);
    KlOfRows(m, cut, lps, tol);
    assert Masses(m, cut, lps, 1.0, mass);
  }

  lemma OverfullChoice(m: Math, n: nat, tol: real) returns (x: real, y: real)
    requires Lawful(m) && n > 0 && tol > 0.0
    ensures x > 0.0 && y > 0.0 && Times(n - 1, x) <= 1.0 && Times(n - 1, y) < 1.0
    ensures Times(n, x) == 1.0 && 1.0 < Times(n, y) <= 1.0 + tol
    ensures Times(n, TermLp(m, Fin(m.ln(x)), Fin(m.ln(y))).0) < 0.0
  {
    hide Lawful, TermLp, Times;
    x, y := OverfullShares(m, n, tol);
    var w := TermLp(m, Fin(m.ln(x)), Fin(m.ln(y))).0;
    OneLess(n, x);
    OneLess(n, w);
    TimesGrows(0, n - 1, w);
    NoTimes(w);
  }

  lemma OverfullValue(m: Math, cells: seq<Cell>, n: nat, x: real, y: real, tol: real) returns (mass: real)
    requires Uniform(m, cells, n, x, y) && Times(n, x) == 1.0 && 1.0 < Times(n, y) <= 1.0 + tol
    requires Times(n, TermLp(m, Fin(m.ln(x)), Fin(m.ln(y))).0) < 0.0
    ensures KlOfCells(m, cells, tol).Valid? && KlOfCells(m, cells, tol).kl < 0.0
    ensures Sum(Ps(m, cells)) == 1.0 && Sum(Qs(m, cells)) == mass && 1.0 < mass <= 1.0 + tol
  {
    hide KlOfCells, Sum, Ps, Qs, Terms, TermLp, Times;
    mass := Times(n, y);
    OverfullCells(m, cells, tol);
  }

  lemma OneLess(n: nat, x: real)
    requires n > 0
    ensures Times(n, x) == Times(n - 1, x) + x
  {
  }

  lemma KlOfRows(m: Math, cut: Cut, lps: Scores, tol: real)
    requires RowsExist(cut, lps)
    ensures KlAt(m, cut, lps, tol) == KlOfCells(m, Cells(cut, lps), tol)
  {
  }

  // ---------------------------------------------------------------- exactness

  /** When nothing is dropped the prefix has the same divergence, whatever the masses. */
  lemma NothingDropped(m: Math, cut: Cut, lps: Scores, zeros: set<int>, tol: real)
    requires Usable(cut) && ZerosAt(cut, lps, zeros) && KlAt(m, cut, lps, tol).Valid?
    requires forall t :: !Dropped(cut, t)
    ensures Refines(m, cut, lps, tol)
  {
    hide KlOfCells, Dropped, KnownTokens, KnownCells, RowOf;
    ShortRowsExist(cut, lps);
    ExtraMatches(cut, lps);
    var short := ShortScores(cut, lps);
    var tokens, low := Tokens(cut, lps), Tokens(Short(cut), short);
    forall i | 0 <= i < |tokens| ensures tokens[i] in low {
      var t := tokens[i];
      assert t in tokens;
      TokensAre(cut, lps, t);
      TokensAre(Short(cut), short, t);
      DroppedIs(cut, t);
    }
    TruncatedRow(cut.refIds, lps.ref, cut.kr);
    TruncatedRow(cut.candIds, lps.cand, cut.kc);
    var ref, cand := RowOf(cut.refIds, lps.ref).value, RowOf(cut.candIds, lps.cand).value;
    var refLow, candLow := RowOf(Short(cut).refIds, short.ref).value, RowOf(Short(cut).candIds, short.cand).value;
    SmallerPartition(refLow, candLow, ref, cand, lps.extra);
    KnownTokensDistinct(ref, cand, lps.extra);
    KnownTokensDistinct(refLow, candLow, lps.extra);
    KeepingAll(m, tokens, Cells(cut, lps), low, Cells(Short(cut), short), tol);
  }

  /** Masses within the tolerance give a valid result. */
  lemma ValidWithin(m: Math, cut: Cut, lps: Scores, p: real, q: real, tol: real)
    requires Masses(m, cut, lps, p, q)
    requires p <= 1.0 + tol || p <= 1.0
    requires q <= 1.0 + tol || q <= 1.0
    ensures KlAt(m, cut, lps, tol).Valid?
  {
    RestsOf(m, Cells(cut, lps), tol);
  }

  /** When the known tokens exhaust the candidate but not the reference, and no candidate score is zero, refinement in K
      holds for all scores exactly when nothing is dropped. */
  lemma RestRefinementIsExact(m: Math, cut: Cut, tol: real)
    requires Lawful(m) && Usable(cut)
    ensures (forall lps | ZerosAt(cut, lps, {}) :: Exhausted(m, cut, lps) ==> Refines(m, cut, lps, tol))
            <==> forall t :: !Dropped(cut, t)
  {
    hide Dropped, Refines, Lawful, Masses;
    if t :| Dropped(cut, t) {
      var lps := ExhaustedBreaks(m, cut, t, tol);
      assert ZerosAt(cut, lps, {}) && Exhausted(m, cut, lps);
      assert !Refines(m, cut, lps, tol);
    } else {
      forall lps | ZerosAt(cut, lps, {}) && Exhausted(m, cut, lps) ensures Refines(m, cut, lps, tol) {
        var p, q :| Masses(m, cut, lps, p, q) && p < 1.0 && q == 1.0;
        ValidWithin(m, cut, lps, p, q, tol);
        NothingDropped(m, cut, lps, {}, tol);
      }
    }
  }

  /** The same when the candidate's mass is above one by no more than the tolerance and clamped. */
  lemma ClampedRefinementIsExact(m: Math, cut: Cut, tol: real)
    requires Lawful(m) && Usable(cut) && tol > 0.0
    ensures (forall lps | ZerosAt(cut, lps, {}) :: Overfull(m, cut, lps, tol) ==> Refines(m, cut, lps, tol))
            <==> forall t :: !Dropped(cut, t)
  {
    hide Dropped, Refines, Lawful, Masses;
    if t :| Dropped(cut, t) {
      var lps := OverfullBreaks(m, cut, t, tol);
      assert ZerosAt(cut, lps, {}) && Overfull(m, cut, lps, tol);
      assert !Refines(m, cut, lps, tol);
    } else {
      forall lps | ZerosAt(cut, lps, {}) && Overfull(m, cut, lps, tol) ensures Refines(m, cut, lps, tol) {
        var p, q :| Masses(m, cut, lps, p, q) && p <= 1.0 + tol && 1.0 < q <= 1.0 + tol;
        ValidWithin(m, cut, lps, p, q, tol);
        NothingDropped(m, cut, lps, {}, tol);
      }
    }
  }
}
