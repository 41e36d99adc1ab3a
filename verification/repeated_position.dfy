/** One position of the repeated-execution comparison from the raw rows (scripts/fidelity/analyze_campaign.py): what its
    rows' known cells are, and that one execution per arm gives the plain coarse divergence. */
module RepeatedPositions {
  import opened Options
  import opened RealMath
  import opened Sums
  import opened CoarseKl
  import opened KlTheorems
  import opened NumpyKl
  import opened Mixtures

  // ---------------------------------------------------------------- the known cells of a row

  /** Every row holds the token. */
  ghost predicate Everywhere(rows: seq<Execution>, t: int) {
    t >= 0 && forall r :: 0 <= r < |rows| ==> t in rows[r].ids
  }

  /** Row `j`'s first entry for the token, which is entry `c`, has this score; the first row's own column counts
      there. */
  ghost predicate FirstEntry(rows: seq<Execution>, j: nat, i: nat, c: nat, lp: Logprob)
    requires j < |rows| && |rows[j].ids| == |rows[j].lps| && i < |rows[0].ids|
  {
    && c < |rows[j].ids| && rows[j].ids[c] == rows[0].ids[i] && rows[j].lps[c] == Known(lp)
    && if j == 0 then c == i else forall b :: 0 <= b < c ==> rows[j].ids[b] != rows[0].ids[i]
  }

  /** Row `j`'s score for the token in column `i`: its own entry for that very token if all rows hold it. */
  ghost predicate ColumnIs(rows: seq<Execution>, j: nat, i: nat, lp: Logprob)
    requires j < |rows| && |rows[j].ids| == |rows[j].lps| && i < |rows[0].ids|
  {
    if Everywhere(rows, rows[0].ids[i]) then exists c :: FirstEntry(rows, j, i, c, lp) else lp == NegInf
  }

  /** The actual token has a column of its own: not every row holds it, and every row knows its score. */
  ghost predicate ActualCounts(rows: seq<Execution>, token: int) {
    token >= 0 && !Everywhere(rows, token) && forall r :: 0 <= r < |rows| ==> rows[r].actual.Known?
  }

  ghost predicate UsableRows(rows: seq<Execution>) {
    forall r :: 0 <= r < |rows| ==> !BadRow(rows[r].ids, rows[r].lps)
  }

  lemma InAllMeaning(rows: seq<Execution>, i: nat)
    requires |rows| > 0 && i < |rows[0].ids|
    ensures InAll(rows, i) <==> Everywhere(rows, rows[0].ids[i])
  {
    assert rows[0].ids[i] in rows[0].ids;
  }

  lemma UsesActualMeaning(rows: seq<Execution>, token: int)
    requires |rows| > 0
    ensures UsesActual(rows, token) <==> ActualCounts(rows, token)
  {
    if Everywhere(rows, token) {
      assert token in rows[0].ids;
      var i :| 0 <= i < |rows[0].ids| && rows[0].ids[i] == token;
      InAllMeaning(rows, i);
    }
    if i :| 0 <= i < |rows[0].ids| && rows[0].ids[i] == token && InAll(rows, i) {
      InAllMeaning(rows, i);
    }
  }

  /** Of usable rows, every column whose token all rows hold carries each row's own score of that token; the other
      columns are zeros; and the last one is the actual token's exactly when it has no other and all rows know its
      score. */
  lemma KnownMeaning(rows: seq<Execution>, token: int, j: nat)
    requires Rectangular(rows) && UsableRows(rows) && j < |rows|
    ensures
      var known, n := KnownOf(rows, token, j), |rows[0].ids|;
      && |known| == n + 1
      && (forall i :: 0 <= i < n ==> ColumnIs(rows, j, i, known[i]))
      && if ActualCounts(rows, token) then rows[j].actual == Known(known[n]) else known[n] == NegInf
  {
    var known, n := KnownOf(rows, token, j), |rows[0].ids|;
    UsesActualMeaning(rows, token);
    forall i | 0 <= i < n ensures ColumnIs(rows, j, i, known[i]) {
      InAllMeaning(rows, i);
      if InAll(rows, i) {
        assert rows[0].ids[i] in rows[j].ids;
        var c := if j == 0 then i else FirstIndex(rows[j].ids, rows[0].ids[i]);
        assert !BadRow(rows[j].ids, rows[j].lps) && RealAt(rows[j].ids, rows[j].lps, c);
        assert FirstEntry(rows, j, i, c, known[i]);
      }
    }
  }

  // ---------------------------------------------------------------- one execution per arm

  function ActualOf(rows: seq<Execution>, token: int): Option<Extra>
    requires |rows| == 2
  {
    Some(Extra(token, rows[0].actual, rows[1].actual))
  }

  /** The plain coarse divergence of two raw rows. */
  function SingleKl(m: Math, rows: seq<Execution>, token: int, tol: real): KL
    requires |rows| == 2
  {
    CoarseKlOf(m, rows[0].ids, rows[0].lps, rows[1].ids, rows[1].lps, ActualOf(rows, token), tol)
  }

  /** With one execution per arm and no repeated shared id, the position is valid when the plain divergence is, and D
      and X are that divergence. */
  ghost predicate AgreesWithSingle(m: Math, rows: seq<Execution>, token: int, tol: real, ok: bool, d: real, x: real)
    requires |rows| == 2
  {
    SharedOnce(rows[0].ids, rows[1].ids) ==>
      (ok <==> SingleKl(m, rows, token, tol).Valid?) && (ok ==> d == x == SingleKl(m, rows, token, tol).kl)
  }

  /** The two rows' known cells side by side are the columns of the vectorised path. */
  lemma TwoRows(rows: seq<Execution>, token: int)
    requires Rectangular(rows) && |rows| == 2
    ensures Zip(KnownOf(rows, token, 0), KnownOf(rows, token, 1))
         == Columns(rows[0].ids, rows[0].lps, rows[1].ids, rows[1].lps, |rows[0].ids|)
            + ExtraColumn(rows[0].ids, rows[1].ids, ActualOf(rows, token))
  {
    var n := |rows[0].ids|;
    var zipped := Zip(KnownOf(rows, token, 0), KnownOf(rows, token, 1));
    var columns := Columns(rows[0].ids, rows[0].lps, rows[1].ids, rows[1].lps, n);
    UsesActualMeaning(rows, token);
    assert rows[..1] == [rows[0]];
    forall i | 0 <= i < n ensures zipped[i] == columns[i] {
      InAllMeaning(rows, i);
      assert rows[0].ids[i] in rows[0].ids;
    }
    assert Everywhere(rows, token) <==> token >= 0 && token in rows[0].ids && token in rows[1].ids;
    assert [zipped[n]] == ExtraColumn(rows[0].ids, rows[1].ids, ActualOf(rows, token));
  }

  lemma ZipSides(p: seq<Logprob>, q: seq<Logprob>)
    requires |p| == |q|
    ensures PSide(Zip(p, q)) == p && QSide(Zip(p, q)) == q
  {
  }

  lemma SingleValidity(m: Math, rows: seq<Execution>, token: int, tol: real)
    requires Rectangular(rows) && |rows| == 2
    ensures SharedOnce(rows[0].ids, rows[1].ids) ==>
              ((forall j :: 0 <= j < |rows| ==> Usable(m, rows, token, j, tol))
               <==> SingleKl(m, rows, token, tol).Valid?)
  {
    hide SharedOnce, NumpyKlOf, CoarseKlOf, LogRestOf, BadRow, KnownOf, Usable;
    if SharedOnce(rows[0].ids, rows[1].ids) {
      PathsAgree(m, rows[0].ids, rows[0].lps, rows[1].ids, rows[1].lps, ActualOf(rows, token), tol);
    }
    NumpyValid(m, rows, token, tol);
    BothUsable(m, rows, token, tol);
  }

  lemma NumpyValid(m: Math, rows: seq<Execution>, token: int, tol: real)
    requires Rectangular(rows) && |rows| == 2
    ensures NumpyKlOf(m, rows[0].ids, rows[0].lps, rows[1].ids, rows[1].lps, ActualOf(rows, token), tol).Valid? <==>
              && !BadRow(rows[0].ids, rows[0].lps) && LogRestOf(m, KnownOf(rows, token, 0), tol).Rest?
              && !BadRow(rows[1].ids, rows[1].lps) && LogRestOf(m, KnownOf(rows, token, 1), tol).Rest?
  {
    hide LogRestOf, BadRow, Columns, ExtraColumn, KnownOf, KlOfCells, ActualOf;
    TwoRows(rows, token);
    ValidCells(m, KnownOf(rows, token, 0), KnownOf(rows, token, 1), tol);
  }

  lemma BothUsable(m: Math, rows: seq<Execution>, token: int, tol: real)
    requires Rectangular(rows) && |rows| == 2
    ensures (forall j :: 0 <= j < |rows| ==> Usable(m, rows, token, j, tol)) <==>
              && !BadRow(rows[0].ids, rows[0].lps) && LogRestOf(m, KnownOf(rows, token, 0), tol).Rest?
              && !BadRow(rows[1].ids, rows[1].lps) && LogRestOf(m, KnownOf(rows, token, 1), tol).Rest?
  {
    hide LogRestOf, BadRow, KnownOf;
    assert (forall j :: 0 <= j < |rows| ==> Usable(m, rows, token, j, tol))
           <==> Usable(m, rows, token, 0, tol) && Usable(m, rows, token, 1, tol);
  }

  lemma ValidCells(m: Math, p: seq<Logprob>, q: seq<Logprob>, tol: real)
    requires |p| == |q|
    ensures KlOfCells(m, Zip(p, q), tol).Valid? <==> LogRestOf(m, p, tol).Rest? && LogRestOf(m, q, tol).Rest?
  {
    hide LogRestOf, Terms, TermLp, AnyFloored, Zip;
    ZipSides(p, q);
  }

  /** The mixture of one row is that row. */
  lemma SingleMixture(m: Math, row: seq<Logprob>)
    requires Lawful(m)
    ensures Mixture(m, [row]) == row
  {
    forall c | 0 <= c < |row| ensures LogMeanExp(m, Mixtures.Column([row], c)) == row[c] {
      var column := Mixtures.Column([row], c);
      assert column == [row[c]];
      LogMeanExpMeaning(m, column);
      SingleMean(m, row[c]);
    }
  }

  lemma SingleMean(m: Math, lp: Logprob)
    requires Lawful(m)
    ensures LogOf(m, Sum(Probs(m, [lp])) / |[lp]| as real) == lp
  {
    assert Probs(m, [lp]) == [Prob(m, lp)];
    OneValue(Prob(m, lp));
    ProbBounds(m, lp);
  }

  lemma OneValue(x: real)
    ensures Sum([x]) == x && x / |[x]| as real == x
  {
    assert [x][..0] == [];
  }

  lemma SingleDivergence(m: Math, rows: seq<Execution>, token: int, refs: seq<seq<Logprob>>, cands: seq<seq<Logprob>>,
                         tol: real)
    requires Lawful(m) && Rectangular(rows) && |rows| == 2 && |refs| == |cands| == 1 && |refs[0]| == |cands[0]|
    requires forall j :: 0 <= j < |rows| ==> Usable(m, rows, token, j, tol)
    requires PartitionRow(m, KnownOf(rows, token, 0), refs[0], tol)
             && PartitionRow(m, KnownOf(rows, token, 1), cands[0], tol)
    ensures exists width: nat :: SameWidth(refs, width) && SameWidth(cands, width)
    ensures SharedOnce(rows[0].ids, rows[1].ids) && SingleKl(m, rows, token, tol).Valid? ==>
              AveragesDivergence(m, refs, cands) == CrossDivergence(m, refs, cands) == SingleKl(m, rows, token, tol).kl
  {
    assert SameWidth(refs, |refs[0]|) && SameWidth(cands, |refs[0]|);
    SingleAverages(m, refs, cands);
    if SharedOnce(rows[0].ids, rows[1].ids) && SingleKl(m, rows, token, tol).Valid? {
      RowsGiveKl(m, rows, token, refs[0], cands[0], tol);
    }
  }

  /** With one row on either side both averages are the rows' divergence. */
  lemma SingleAverages(m: Math, refs: seq<seq<Logprob>>, cands: seq<seq<Logprob>>)
    requires Lawful(m) && |refs| == |cands| == 1 && |refs[0]| == |cands[0]|
    requires exists width: nat :: SameWidth(refs, width) && SameWidth(cands, width)
    ensures AveragesDivergence(m, refs, cands) == CrossDivergence(m, refs, cands) == KlRows(m, refs[0], cands[0])
  {
    hide Lawful, KlRows, Sum;
    SingleMixture(m, refs[0]);
    SingleMixture(m, cands[0]);
    assert refs == [refs[0]] && cands == [cands[0]];
    SinglePair(m, refs, cands);
    OneValue(KlRows(m, refs[0], cands[0]));
  }

  lemma SinglePair(m: Math, refs: seq<seq<Logprob>>, cands: seq<seq<Logprob>>)
    requires |refs| == |cands| == 1 && |refs[0]| == |cands[0]|
    ensures CrossPairs(m, refs, cands) == [KlRows(m, refs[0], cands[0])]
  {
    hide KlRows;
    assert CrossPairs(m, refs[..0], cands) == [];
    assert Against(m, refs[0], cands) == [KlRows(m, refs[0], cands[0])];
  }

  lemma RowsGiveKl(m: Math, rows: seq<Execution>, token: int, p: seq<Logprob>, q: seq<Logprob>, tol: real)
    requires Rectangular(rows) && |rows| == 2 && |p| == |q| && SharedOnce(rows[0].ids, rows[1].ids)
    requires PartitionRow(m, KnownOf(rows, token, 0), p, tol) && PartitionRow(m, KnownOf(rows, token, 1), q, tol)
    requires SingleKl(m, rows, token, tol).Valid?
    ensures KlRows(m, p, q) == SingleKl(m, rows, token, tol).kl
  {
    hide Columns, ExtraColumn, CoarseKlOf, KnownOf, LogRestOf, KlOfCells, SharedOnce, BadRow, PartitionRow, KlRows;
    PathsAgree(m, rows[0].ids, rows[0].lps, rows[1].ids, rows[1].lps, ActualOf(rows, token), tol);
    TwoRows(rows, token);
    CellsGiveKl(m, KnownOf(rows, token, 0), KnownOf(rows, token, 1), p, q, tol);
  }

  lemma CellsGiveKl(m: Math, known: seq<Logprob>, other: seq<Logprob>, p: seq<Logprob>, q: seq<Logprob>, tol: real)
    requires |known| == |other| && |p| == |q| && PartitionRow(m, known, p, tol) && PartitionRow(m, other, q, tol)
    ensures KlOfCells(m, Zip(known, other), tol).Valid?
    ensures KlRows(m, p, q) == KlOfCells(m, Zip(known, other), tol).kl
  {
    ZipSides(known, other);
    hide LogRestOf, TermLp, AnyFloored, Terms, Sum;
    var rest := Cell(p[|p| - 1], q[|q| - 1]);
    assert Zip(p, q) == Zip(known, other) + [rest];
    TermsSnoc(m, Zip(known, other), rest);
  }

  // ---------------------------------------------------------------- the position

  lemma RowsFormArms(m: Math, rows: seq<Execution>, token: int, logs: seq<seq<Logprob>>, executions: nat, tol: real)
    requires Rectangular(rows) && |rows| == |logs| == 2 * executions && tol >= 0.0
    requires forall j :: 0 <= j < |rows| ==> PartitionRow(m, KnownOf(rows, token, j), logs[j], tol)
    ensures
      var width := |rows[0].ids| + 2;
      && SameWidth(logs[..executions], width) && SameWidth(logs[executions..], width)
      && (Lawful(m) ==> Arm(m, logs[..executions], width, tol) && Arm(m, logs[executions..], width, tol))
  {
    forall j | 0 <= j < |rows|
      ensures |logs[j]| == |rows[0].ids| + 2
      ensures Lawful(m) ==> 1.0 <= Sum(Probs(m, logs[j])) <= 1.0 + tol
    {
      assert PartitionRow(m, KnownOf(rows, token, j), logs[j], tol);
      if Lawful(m) {
        FullMass(m, KnownOf(rows, token, j), tol);
      }
    }
  }

  /** One position of the repeated-execution comparison, from the raw rows of both arms. */
  method RepeatedPosition(m: Math, rows: seq<Execution>, executions: nat, token: int, tol: real := CLAMP_TOL)
    returns (ok: bool, refs: seq<seq<Logprob>>, cands: seq<seq<Logprob>>, d: real, x: real)
    requires Rectangular(rows) && |rows| == 2 * executions && tol >= 0.0
    ensures |refs| == |cands| == executions
    ensures ok <==> forall j :: 0 <= j < |rows| ==> Usable(m, rows, token, j, tol)
    ensures ok ==> forall j :: 0 <= j < executions ==>
                     && PartitionRow(m, KnownOf(rows, token, j), refs[j], tol)
                     && PartitionRow(m, KnownOf(rows, token, executions + j), cands[j], tol)
    ensures ok ==> var width := |rows[0].ids| + 2;
                   && SameWidth(refs, width) && SameWidth(cands, width)
                   && d == AveragesDivergence(m, refs, cands) && x == CrossDivergence(m, refs, cands)
                   && (Lawful(m) && Unfloored(refs, cands, width) ==> -tol <= d <= x)
    ensures executions == 1 && Lawful(m) ==> AgreesWithSingle(m, rows, token, tol, ok, d, x)
  {
    hide Usable, PartitionRow, BadRow, LogRestOf, Unfloored, Lawful;
    var logs;
    logs, ok := PartitionLogprobs(m, rows, token, tol);
    refs, cands, d, x := logs[..executions], logs[executions..], 0.0, 0.0;
    if ok {
      RowsFormArms(m, rows, token, logs, executions, tol);
      ghost var width := |rows[0].ids| + 2;
      assert SameWidth(refs, width) && SameWidth(cands, width);
      d := AveragesDivergence(m, refs, cands);
      x := CrossDivergence(m, refs, cands);
      if Lawful(m) && Unfloored(refs, cands, width) {
        AveragesBounds(m, refs, cands, width, tol);
      }
    }
    if executions == 1 && Lawful(m) {
      SingleValidity(m, rows, token, tol);
      if ok {
        SingleDivergence(m, rows, token, refs, cands, tol);
      }
    }
  }
}
