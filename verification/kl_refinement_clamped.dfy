/** Refinement in K when the reference's known mass is above one and clamped: it holds for all scores exactly when
    nothing is dropped, or nothing is kept. */
module KlRefinementClamped {
  import opened Options
  import opened RealMath
  import opened Sums
  import opened CoarseKl
  import opened NumpyKl
  import opened KlTheorems
  import opened KlRefinement
  import opened KlRefinementExact
  import opened KlRefinementRest

  /** The known tokens have more than all of the reference's mass, within the tolerance. */
  ghost predicate OverfullReference(m: Math, cut: Cut, lps: Scores, tol: real) {
    exists p, q :: Masses(m, cut, lps, p, q) && 1.0 < p <= 1.0 + tol && q <= 1.0
  }

  // ---------------------------------------------------------------- kept and dropped tokens

  function DroppedSet(cut: Cut): set<int>
    requires Proper(cut)
  {
    KnownSet(cut) - KnownSet(Short(cut))
  }

  lemma SetsMeaning(cut: Cut, t: int)
    requires Proper(cut)
    ensures t in KnownSet(Short(cut)) <==> Kept(cut, t)
    ensures t in DroppedSet(cut) <==> Dropped(cut, t)
  {
    KnownSetMeaning(cut, t);
    KnownSetMeaning(Short(cut), t);
  }

  lemma {:induction false} CountOfSubset(tokens: seq<int>, s: set<int>)
    requires Distinct(tokens) && forall t :: t in s ==> t in tokens
    ensures CountIn(tokens, s) == |s|
  {
    if |tokens| == 0 {
      assert forall t :: t in s ==> t in tokens;
      assert s == {};
    } else {
      var k := |tokens| - 1;
      var front, last := tokens[..k], tokens[k];
      assert tokens == front + [last];
      assert last !in front;
      CountOfSubset(front, s - {last});
      CountWithout(front, s, last);
    }
  }

  lemma {:induction false} CountWithout(tokens: seq<int>, s: set<int>, t: int)
    requires t !in tokens
    ensures CountIn(tokens, s - {t}) == CountIn(tokens, s)
  {
    if |tokens| == 0 {
    } else {
      CountWithout(tokens[..|tokens| - 1], s, t);
    }
  }

  lemma {:induction false} CountOutside(tokens: seq<int>, s: set<int>)
    requires forall t :: t in tokens ==> t !in s
    ensures CountIn(tokens, s) == 0
  {
    if |tokens| == 0 {
    } else {
      var last := tokens[|tokens| - 1];
      assert last in tokens && last !in s;
      CountOutside(tokens[..|tokens| - 1], s);
    }
  }

  /** How many tokens of each kind the two partitions have. */
  lemma Counts(tokens: seq<int>, few: seq<int>, kept: set<int>, dropped: set<int>)
    requires Distinct(tokens) && Distinct(few) && kept !! dropped
    requires (forall t :: t in tokens <==> t in kept || t in dropped) && forall t :: t in few <==> t in kept
    ensures CountIn(tokens, dropped) == |dropped| && |tokens| - |dropped| == |kept|
    ensures CountIn(few, dropped) == 0 && |few| == |kept|
  {
    CountOfSubset(tokens, dropped);
    DistinctSize(tokens, kept + dropped);
    CountOutside(few, dropped);
    DistinctSize(few, kept);
  }

  // ---------------------------------------------------------------- equal parts of a cell

  /** `n` equal parts of a probability. */
  lemma Parts(n: nat, whole: real) returns (x: real)
    requires n > 0 && whole > 0.0
    ensures x > 0.0 && Times(n, x) == whole && n as real * x == whole
  {
    x := whole / n as real;
    TimesIsProduct(n, x);
    assert n as real * x == whole;
  }

  /** `n` equal parts of a cell have together the term of the whole. */
  lemma PartsTerm(m: Math, n: nat, x: real, y: real, p: real, q: real)
    requires Lawful(m) && n > 0 && x > 0.0 && y > 0.0 && n as real * x == p > 0.0 && n as real * y == q > 0.0
    ensures Times(n, TermLp(m, Fin(m.ln(x)), Fin(m.ln(y))).0) == TermLp(m, Fin(m.ln(p)), Fin(m.ln(q))).0
  {
    var l := m.ln(x) - m.ln(y);
    ScaledLn(m, n as real, x, p);
    ScaledLn(m, n as real, y, q);
    hide Lawful, TermLp;
    FinTerm(m, x, y, l);
    FinTerm(m, p, q, l);
    TimesIsProduct(n, x * l);
    ScaleFactor(n as real, x, l, p);
  }

  lemma FinTerm(m: Math, x: real, y: real, l: real)
    requires Lawful(m) && x > 0.0 && l == m.ln(x) - m.ln(y)
    ensures TermLp(m, Fin(m.ln(x)), Fin(m.ln(y))).0 == x * l
  {
    assert LnInvertsExp(m, x);
  }

  lemma ScaledLn(m: Math, n: real, x: real, p: real)
    requires Lawful(m) && n > 0.0 && x > 0.0 && n * x == p
    ensures m.ln(p) == m.ln(n) + m.ln(x)
  {
    LnOfProduct(m, n, x);
  }

  lemma ScaleFactor(n: real, x: real, l: real, p: real)
    requires n * x == p
    ensures n * (x * l) == p * l
  {
  }

  // ---------------------------------------------------------------- two kinds of cells

  /** Sums over cells of two kinds whose scores are all finite. */
  ghost predicate Divided(m: Math, cells: seq<Cell>, z: nat, n: nat, a: Cell, b: Cell) {
    && Sum(Ps(m, cells)) == Times(z, Prob(m, a.p)) + Times(n, Prob(m, b.p))
    && Sum(Qs(m, cells)) == Times(z, Prob(m, a.q)) + Times(n, Prob(m, b.q))
    && Sum(Terms(m, cells)) == Times(z, TermLp(m, a.p, a.q).0) + Times(n, TermLp(m, b.p, b.q).0)
  }

  lemma KindsDivide(m: Math, tokens: seq<int>, cells: seq<Cell>, zeros: set<int>, z: nat, n: nat, a: Cell, b: Cell)
    requires TwoKinds(tokens, cells, zeros, a, b) && CountIn(tokens, zeros) == z && |tokens| - z == n
    ensures Divided(m, cells, z, n, a, b)
  {
    hide Sum, Ps, Qs, Terms, Prob, TermLp, Times, CountIn, TwoKinds;
    KindSums(m, tokens, cells, zeros, a, b);
  }

  lemma DividedRows(m: Math, cut: Cut, lps: Scores, a: Cell, b: Cell)
    requires Proper(cut) && Scored(cut, lps) && CellsOf(cut, lps, DroppedSet(cut), a, b)
    requires CellsOf(Short(cut), ShortScores(cut, lps), DroppedSet(cut), a, b)
    ensures RowsExist(cut, lps) && Divided(m, Cells(cut, lps), |DroppedSet(cut)|, |KnownSet(Short(cut))|, a, b)
    ensures
      RowsExist(Short(cut), ShortScores(cut, lps))
      && Divided(m, Cells(Short(cut), ShortScores(cut, lps)), 0, |KnownSet(Short(cut))|, a, b)
  {
    var kept, dropped := KnownSet(Short(cut)), DroppedSet(cut);
    var tokens, few := Tokens(cut, lps), Tokens(Short(cut), ShortScores(cut, lps));
    hide TwoKinds, CountIn, KnownSet, DroppedSet, Distinct, Tokens, Cells, Divided, KnownIn;
    SetsOf(cut, tokens, few);
    Counts(tokens, few, kept, dropped);
    KindsDivide(m, tokens, Cells(cut, lps), dropped, |dropped|, |kept|, a, b);
    KindsDivide(m, few, Cells(Short(cut), ShortScores(cut, lps)), dropped, 0, |kept|, a, b);
  }

  lemma SetsOf(cut: Cut, tokens: seq<int>, few: seq<int>)
    requires Proper(cut)
    requires (forall t :: t in tokens <==> KnownIn(cut, t)) && forall t :: t in few <==> KnownIn(Short(cut), t)
    ensures
      var kept, dropped := KnownSet(Short(cut)), DroppedSet(cut);
      && kept !! dropped
      && (forall t :: t in tokens <==> t in kept || t in dropped) && forall t :: t in few <==> t in kept
  {
    forall t
      ensures t in tokens <==> t in KnownSet(Short(cut)) || t in DroppedSet(cut)
      ensures t in few <==> t in KnownSet(Short(cut))
    {
      SetsMeaning(cut, t);
      if Kept(cut, t) {
        KeptIsKnown(cut, t);
      }
    }
  }

  /** Kept tokens with 0.9 against 0.1, dropped ones with 0.1 and the excess against 0.9. */
  lemma DividedValues(m: Math, high: seq<Cell>, low: seq<Cell>, z: nat, n: nat, a: Cell, b: Cell, c: real, tol: real)
    requires Lawful(m) && z > 0 && n > 0 && 0.0 < c < 0.1 && c <= tol
    requires Divided(m, high, z, n, a, b) && Divided(m, low, 0, n, a, b)
    requires Times(z, Prob(m, a.p)) == 0.1 + c && Times(z, Prob(m, a.q)) == 0.9
    requires Times(n, Prob(m, b.p)) == 0.9 && Times(n, Prob(m, b.q)) == 0.1
    requires Times(z, TermLp(m, a.p, a.q).0) == TermLp(m, Fin(m.ln(0.1 + c)), Fin(m.ln(0.9))).0
    ensures KlOfCells(m, high, tol).Valid? && KlOfCells(m, low, tol).Valid?
    ensures KlOfCells(m, high, tol).kl < KlOfCells(m, low, tol).kl
    ensures Sum(Ps(m, high)) == 1.0 + c && Sum(Qs(m, high)) == 1.0
  {
    hide Sum, Ps, Qs, Terms, Prob, LogRestOf, AnyFloored, Lawful;
    NoTimes(Prob(m, a.p));
    NoTimes(Prob(m, a.q));
    NoTimes(TermLp(m, a.p, a.q).0);
    hide Times;
    RestsOf(m, high, tol);
    RestsOf(m, low, tol);
    TermFalls(m, c);
    assert 1.0 - 0.9 == 0.1 && 1.0 - 0.1 == 0.9;
  }

  // ---------------------------------------------------------------- scores that break the claim

  lemma ClampedBreaks(m: Math, cut: Cut, t: int, u: int, tol: real) returns (lps: Scores)
    requires Lawful(m) && Usable(cut) && tol > 0.0 && Dropped(cut, t) && Kept(cut, u)
    ensures ZerosAt(cut, lps, {}) && OverfullReference(m, cut, lps, tol) && !Refines(m, cut, lps, tol)
  {
    SetsMeaning(cut, t);
    SetsMeaning(cut, u);
    var z, n := |DroppedSet(cut)|, |KnownSet(Short(cut))|;
    var c := if tol < 0.05 then tol else 0.05;
    hide KlOfCells, Sum, Ps, Qs, TermLp, Lawful, Times, HasReal, Divided, Prob, CellsOf, KindScores, Cells, Tokens,
         RowsExist;
    hide DroppedSet, KnownSet;
    var a, b := KindsOfScores(m, z, n, c);
    lps := KindScores(cut, DroppedSet(cut), a, b);
    KindZeros(cut, DroppedSet(cut), a, b, {});
    CutCells(cut, DroppedSet(cut), a, b);
    DividedRows(m, cut, lps, a, b);
    var short := ShortScores(cut, lps);
    DividedValues(m, Cells(cut, lps), Cells(Short(cut), short), z, n, a, b, c, tol);
    KlOfRows(m, cut, lps, tol);
    KlOfRows(m, Short(cut), short, tol);
    assert Masses(m, cut, lps, 1.0 + c, 1.0);
  }

  /** The scores of one dropped and one kept token. */
  lemma KindsOfScores(m: Math, z: nat, n: nat, c: real) returns (a: Cell, b: Cell)
    requires Lawful(m) && z > 0 && n > 0 && 0.0 < c < 0.1
    ensures a.p.Fin? && a.q.Fin? && b.p.Fin? && b.q.Fin?
    ensures Times(z, Prob(m, a.p)) == 0.1 + c && Times(z, Prob(m, a.q)) == 0.9
    ensures Times(n, Prob(m, b.p)) == 0.9 && Times(n, Prob(m, b.q)) == 0.1
    ensures Times(z, TermLp(m, a.p, a.q).0) == TermLp(m, Fin(m.ln(0.1 + c)), Fin(m.ln(0.9))).0
  {
    hide Lawful, Times, TermLp, Prob;
    var x := Parts(z, 0.1 + c);
    var y := Parts(z, 0.9);
    var v := Parts(n, 0.9);
    var w := Parts(n, 0.1);
    a, b := Cell(Fin(m.ln(x)), Fin(m.ln(y))), Cell(Fin(m.ln(v)), Fin(m.ln(w)));
    ProbOfFin(m, x);
    ProbOfFin(m, y);
    ProbOfFin(m, v);
    ProbOfFin(m, w);
    PartsTerm(m, z, x, y, 0.1 + c, 0.9);
  }

  // ---------------------------------------------------------------- nothing kept

  /** Without any known cell the divergence is zero. */
  lemma EmptyValue(m: Math, cells: seq<Cell>, tol: real)
    requires Lawful(m) && |cells| == 0
    ensures KlOfCells(m, cells, tol).Valid? && KlOfCells(m, cells, tol).kl == 0.0
  {
    NothingSums(m, cells);
    RestsOf(m, cells, tol);
    LnOfOne(m);
  }

  /** With an excess of reference mass and no candidate zero the divergence is positive. */
  lemma ExcessIsPositive(m: Math, cells: seq<Cell>, tol: real)
    requires Lawful(m) && 1.0 < Sum(Ps(m, cells)) <= 1.0 + tol && Sum(Qs(m, cells)) <= 1.0
    requires forall i :: 0 <= i < |cells| ==> cells[i].q.Fin?
    ensures KlOfCells(m, cells, tol).Valid? && KlOfCells(m, cells, tol).kl > 0.0
  {
    RestsOf(m, cells, tol);
    TermsAboveMasses(m, cells);
    assert MeasuredQs(m, cells) == Qs(m, cells);
  }

  lemma NothingKept(m: Math, cut: Cut, lps: Scores, tol: real)
    requires Lawful(m) && Usable(cut) && ZerosAt(cut, lps, {}) && OverfullReference(m, cut, lps, tol)
    requires forall t :: !Kept(cut, t)
    ensures Refines(m, cut, lps, tol)
  {
    hide KlOfCells, Sum, Ps, Qs, Lawful, Cells, Tokens, RowsExist;
    ShortRowsExist(cut, lps);
    NoLowCells(cut, lps);
    forall i | 0 <= i < |Cells(cut, lps)| ensures Cells(cut, lps)[i].q.Fin? {
      ZeroCell(cut, lps, {}, i);
    }
    EmptyValue(m, Cells(Short(cut), ShortScores(cut, lps)), tol);
    ExcessIsPositive(m, Cells(cut, lps), tol);
    KlOfRows(m, cut, lps, tol);
    KlOfRows(m, Short(cut), ShortScores(cut, lps), tol);
  }

  lemma NoLowCells(cut: Cut, lps: Scores)
    requires Proper(cut) && ZerosAt(cut, lps, {}) && RowsExist(Short(cut), ShortScores(cut, lps))
    requires forall t :: !Kept(cut, t)
    ensures |Cells(Short(cut), ShortScores(cut, lps))| == 0
  {
    var few := Tokens(Short(cut), ShortScores(cut, lps));
    if |few| > 0 {
      LowTokenIsKept(cut, lps, few[0]);
      assert false;
    }
  }

  lemma LowTokenIsKept(cut: Cut, lps: Scores, t: int)
    requires Proper(cut) && ZerosAt(cut, lps, {}) && RowsExist(Short(cut), ShortScores(cut, lps))
    requires t in Tokens(Short(cut), ShortScores(cut, lps))
    ensures Kept(cut, t)
  {
    TokensAre(Short(cut), ShortScores(cut, lps), t);
  }

  // ---------------------------------------------------------------- exactness

  /** When the reference's mass is above one by no more than the tolerance, and no candidate score is zero,
      refinement in K holds for all scores exactly when no known token is dropped or none is kept. */
  lemma ReferenceRefinementIsExact(m: Math, cut: Cut, tol: real)
    requires Lawful(m) && Usable(cut) && tol > 0.0
    ensures (forall lps | ZerosAt(cut, lps, {}) :: OverfullReference(m, cut, lps, tol) ==> Refines(m, cut, lps, tol))
            <==> (forall t :: !Dropped(cut, t)) || (forall t :: !Kept(cut, t))
  {
    hide Dropped, Kept, Refines, Lawful, Masses;
    if t, u :| Dropped(cut, t) && Kept(cut, u) {
      var lps := ClampedBreaks(m, cut, t, u, tol);
      assert ZerosAt(cut, lps, {}) && OverfullReference(m, cut, lps, tol);
      assert !Refines(m, cut, lps, tol);
    } else {
      forall lps | ZerosAt(cut, lps, {}) && OverfullReference(m, cut, lps, tol) ensures Refines(m, cut, lps, tol) {
        if forall t :: !Kept(cut, t) {
          NothingKept(m, cut, lps, tol);
        } else {
          var p, q :| Masses(m, cut, lps, p, q) && 1.0 < p <= 1.0 + tol && q <= 1.0;
          ValidWithin(m, cut, lps, p, q, tol);
          NothingDropped(m, cut, lps, {}, tol);
        }
      }
    }
  }
}
