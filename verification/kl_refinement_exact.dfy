/** The converse of refinement in K for candidate zeros: whenever a token is dropped whose candidate score is a zero,
    some scores make the longer rows score lower. */
module KlRefinementExact {
  import opened Options
  import opened RealMath
  import opened Sums
  import opened CoarseKl
  import opened NumpyKl
  import opened KlTheorems
  import opened KlRefinement

  // ---------------------------------------------------------------- sums of equal values

  function Times(n: nat, x: real): real { if n == 0 then 0.0 else Times(n - 1, x) + x }

  lemma {:induction false} TimesIsProduct(n: nat, x: real)
    ensures Times(n, x) == n as real * x
  {
    if n == 0 {
    } else {
      TimesIsProduct(n - 1, x);
    }
  }

  lemma {:induction false} TimesGrows(a: nat, b: nat, x: real)
    requires a <= b
    ensures x >= 0.0 ==> 0.0 <= Times(a, x) <= Times(b, x)
    ensures x <= 0.0 ==> Times(b, x) <= Times(a, x) <= 0.0
  {
    if b == 0 {
    } else if a == b {
      TimesGrows(a - 1, b - 1, x);
    } else {
      TimesGrows(a, b - 1, x);
    }
  }

  // ---------------------------------------------------------------- cells of two kinds

  /** How many tokens are in a set. */
  function CountIn(tokens: seq<int>, zeros: set<int>): (n: nat)
    ensures n <= |tokens|
  {
    if |tokens| == 0 then 0
    else CountIn(tokens[..|tokens| - 1], zeros) + if tokens[|tokens| - 1] in zeros then 1 else 0
  }

  /** Tokens of the set have cell `a`, the others cell `b`. */
  ghost predicate TwoKinds(tokens: seq<int>, cells: seq<Cell>, zeros: set<int>, a: Cell, b: Cell) {
    |tokens| == |cells| && forall i :: 0 <= i < |tokens| ==> cells[i] == if tokens[i] in zeros then a else b
  }

  lemma NothingSums(m: Math, cells: seq<Cell>)
    requires |cells| == 0
    ensures Sum(Ps(m, cells)) == 0.0 && Sum(Qs(m, cells)) == 0.0 && Sum(Terms(m, cells)) == 0.0
  {
  }

  lemma TimesStep(n: nat, x: real)
    ensures Times(n + 1, x) == Times(n, x) + x
  {
  }

  lemma {:induction false} KindSums(m: Math, tokens: seq<int>, cells: seq<Cell>, zeros: set<int>, a: Cell, b: Cell)
    requires TwoKinds(tokens, cells, zeros, a, b)
    ensures
      var z := CountIn(tokens, zeros);
      var n := |tokens| - z;
      && Sum(Ps(m, cells)) == Times(z, Prob(m, a.p)) + Times(n, Prob(m, b.p))
      && Sum(Qs(m, cells)) == Times(z, Prob(m, a.q)) + Times(n, Prob(m, b.q))
      && Sum(Terms(m, cells)) == Times(z, TermLp(m, a.p, a.q).0) + Times(n, TermLp(m, b.p, b.q).0)
  {
    hide Sum, Ps, Qs, Terms, Prob, TermLp;
    if |tokens| == 0 {
      NothingSums(m, cells);
    } else {
      var k := |tokens| - 1;
      var front, c := cells[..k], cells[k];
      KindSums(m, tokens[..k], front, zeros, a, b);
      assert cells == front + [c];
      TermsSnoc(m, front, c);
      CellSnoc(m, front, c);
      var z := CountIn(tokens[..k], zeros);
      if tokens[k] in zeros {
        TimesStep(z, Prob(m, a.p));
        TimesStep(z, Prob(m, a.q));
        TimesStep(z, TermLp(m, a.p, a.q).0);
      } else {
        TimesStep(k - z, Prob(m, b.p));
        TimesStep(k - z, Prob(m, b.q));
        TimesStep(k - z, TermLp(m, b.p, b.q).0);
      }
    }
  }

  function Marks(tokens: seq<int>, zeros: set<int>): (r: seq<real>)
    ensures |r| == |tokens| && forall i :: 0 <= i < |r| ==> r[i] == if tokens[i] in zeros then 1.0 else 0.0
  {
    seq(|tokens|, i requires 0 <= i < |tokens| => if tokens[i] in zeros then 1.0 else 0.0)
  }

  lemma {:induction false} MarksCount(tokens: seq<int>, zeros: set<int>)
    ensures Sum(Marks(tokens, zeros)) == CountIn(tokens, zeros) as real
  {
    if |tokens| == 0 {
    } else {
      MarksCount(tokens[..|tokens| - 1], zeros);
      assert Marks(tokens, zeros)[..|tokens| - 1] == Marks(tokens[..|tokens| - 1], zeros);
    }
  }

  /** A subset that misses a marked token has fewer marked tokens. */
  lemma FewerMarked(high: seq<int>, low: seq<int>, zeros: set<int>, t: int)
    requires Distinct(high) && Distinct(low) && forall j :: 0 <= j < |low| ==> low[j] in high
    requires t in high && t in zeros && t !in low
    ensures CountIn(low, zeros) < CountIn(high, zeros)
  {
    var all, picked := Marks(high, zeros), Marks(low, zeros);
    forall j | 0 <= j < |low| ensures Holds(all, high, low[j], picked[j]) {
      assert low[j] in high;
      var i :| 0 <= i < |high| && high[i] == low[j];
      assert high[i] == low[j] && all[i] == picked[j];
    }
    SumSplit(all, high, low, picked);
    var left := Unselected(all, high, low);
    SumNonNegative(left);
    var i :| 0 <= i < |high| && high[i] == t;
    assert left[i] == 1.0;
    MarksCount(high, zeros);
    MarksCount(low, zeros);
  }

  // ---------------------------------------------------------------- scores that depend on the id only

  /** Every real entry's score: `a` for ids of the set, `b` for the others. */
  function ScoresFor(ids: seq<int>, zeros: set<int>, a: Logprob, b: Logprob): (r: seq<Entry>)
    ensures |r| == |ids| && forall i :: 0 <= i < |ids| ==> r[i] == Known(if ids[i] in zeros then a else b)
  {
    seq(|ids|, i requires 0 <= i < |ids| => Known(if ids[i] in zeros then a else b))
  }

  predicate HasReal(ids: seq<int>) { exists i :: 0 <= i < |ids| && ids[i] >= 0 }

  /** A row without a real id is never usable. */
  lemma RealIsNeeded(ids: seq<int>, lps: seq<Entry>)
    requires |ids| == |lps| && RowOf(ids, lps).Some?
    ensures HasReal(ids)
  {
    UsableRow(ids, lps);
    assert !BadRow(ids, lps);
  }

  lemma RowOfScores(ids: seq<int>, zeros: set<int>, a: Logprob, b: Logprob)
    requires HasReal(ids)
    ensures RowOf(ids, ScoresFor(ids, zeros, a, b)).Some?
    ensures
      var row := RowOf(ids, ScoresFor(ids, zeros, a, b)).value;
      && (forall k :: k in row.at <==> k >= 0 && k in ids)
      && forall k :: k in row.at ==> row.at[k] == if k in zeros then a else b
  {
    var lps := ScoresFor(ids, zeros, a, b);
    UsableRow(ids, lps);
    GatheredMeaning(ids, lps, |ids|);
    assert !BadRow(ids, lps);
    var row := RowOf(ids, lps).value;
    forall k | k in row.at ensures row.at[k] == if k in zeros then a else b {
      var i :| 0 <= i < |ids| && LastAt(ids, lps, i, |ids|, k) && lps[i] == Known(row.at[k]);
      assert ids[i] == k;
    }
  }

  lemma {:induction false} KeysBounded(ids: seq<int>, lps: seq<Entry>, n: nat)
    requires n <= |ids| && n <= |lps| && Gathered(ids, lps, n).Some?
    ensures |Gathered(ids, lps, n).value.keys| <= n
  {
    if n == 0 {
    } else {
      KeysBounded(ids, lps, n - 1);
    }
  }

  lemma {:induction false} SharedBounded(keys: seq<int>, cand: map<int, Logprob>)
    ensures |Shared(keys, cand)| <= |keys|
  {
    if |keys| == 0 {
    } else {
      SharedBounded(keys[..|keys| - 1], cand);
    }
  }

  // ---------------------------------------------------------------- rows and how they are cut

  /** The ids of two rows, the prefixes both are cut to, and the actual token if it is known on both sides. */
  datatype Cut = Cut(refIds: seq<int>, candIds: seq<int>, kr: nat, kc: nat, actual: Option<int>)

  /** The scores of both rows and of the actual token. */
  datatype Scores = Scores(ref: seq<Entry>, cand: seq<Entry>, extra: Option<Extra>)

  predicate Proper(cut: Cut) { cut.kr <= |cut.refIds| && cut.kc <= |cut.candIds| }

  /** Both prefixes hold a real id. */
  predicate Usable(cut: Cut) { Proper(cut) && HasReal(cut.refIds[..cut.kr]) && HasReal(cut.candIds[..cut.kc]) }

  function Short(cut: Cut): Cut
    requires Proper(cut)
  {
    Cut(cut.refIds[..cut.kr], cut.candIds[..cut.kc], cut.kr, cut.kc, cut.actual)
  }

  predicate Scored(cut: Cut, lps: Scores) { |cut.refIds| == |lps.ref| && |cut.candIds| == |lps.cand| }

  function ShortScores(cut: Cut, lps: Scores): Scores
    requires Proper(cut) && Scored(cut, lps)
  {
    Scores(lps.ref[..cut.kr], lps.cand[..cut.kc], lps.extra)
  }

  predicate RowsExist(cut: Cut, lps: Scores) { RowOf(cut.refIds, lps.ref).Some? && RowOf(cut.candIds, lps.cand).Some? }

  function Tokens(cut: Cut, lps: Scores): seq<int>
    requires RowsExist(cut, lps)
  {
    KnownTokens(RowOf(cut.refIds, lps.ref).value, RowOf(cut.candIds, lps.cand).value, lps.extra)
  }

  function Cells(cut: Cut, lps: Scores): (r: seq<Cell>)
    requires RowsExist(cut, lps)
    ensures |r| == |Tokens(cut, lps)|
  {
    KnownCells(RowOf(cut.refIds, lps.ref).value, RowOf(cut.candIds, lps.cand).value, lps.extra)
  }

  function KlAt(m: Math, cut: Cut, lps: Scores, tol: real): KL {
    CoarseKlOf(m, cut.refIds, lps.ref, cut.candIds, lps.cand, lps.extra, tol)
  }

  /** The claim: the long rows score at least as high as their prefixes. */
  ghost predicate Refines(m: Math, cut: Cut, lps: Scores, tol: real)
    requires Proper(cut) && Scored(cut, lps)
  {
    var high, low := KlAt(m, cut, lps, tol), KlAt(m, Short(cut), ShortScores(cut, lps), tol);
    high.Valid? && low.Valid? && low.kl <= high.kl
  }

  /** A token with a cell of its own: both rows hold it, or it is the actual token. */
  predicate KnownIn(cut: Cut, t: int) {
    t >= 0 && (cut.actual == Some(t) || (t in cut.refIds && t in cut.candIds))
  }

  predicate Kept(cut: Cut, t: int)
    requires Proper(cut)
  {
    KnownIn(Short(cut), t)
  }

  predicate Dropped(cut: Cut, t: int)
    requires Proper(cut)
  {
    KnownIn(cut, t) && !Kept(cut, t)
  }

  lemma KeptIsKnown(cut: Cut, t: int)
    requires Proper(cut) && Kept(cut, t)
    ensures KnownIn(cut, t)
  {
  }

  /** The actual token has scores exactly when there is one, and they are the rows' scores where a row holds it. */
  ghost predicate ActualScores(cut: Cut, lps: Scores) {
    match lps.extra
    case None => cut.actual.None?
    case Some(x) =>
      && cut.actual == Some(x.token) && x.p.Known? && x.q.Known?
      && (forall i :: RealAt(cut.refIds, lps.ref, i) && cut.refIds[i] == x.token ==> lps.ref[i] == x.p)
      && forall j :: RealAt(cut.candIds, lps.cand, j) && cut.candIds[j] == x.token ==> lps.cand[j] == x.q
  }

  /** Scores whose candidate zeros are exactly the ids of a set, and the reference has none; a repeated id has one
      score. */
  ghost predicate ZerosAt(cut: Cut, lps: Scores, zeros: set<int>) {
    && Scored(cut, lps) && Consistent(cut.refIds, lps.ref) && Consistent(cut.candIds, lps.cand)
        && ActualScores(cut, lps)
    && (forall i :: RealAt(cut.refIds, lps.ref, i) ==> lps.ref[i].Known? && lps.ref[i].lp.Fin?)
    && (forall j :: RealAt(cut.candIds, lps.cand, j) ==>
          lps.cand[j].Known? && (lps.cand[j].lp.NegInf? <==> cut.candIds[j] in zeros))
    && (lps.extra.Some? ==>
          lps.extra.value.p.lp.Fin? && (lps.extra.value.q.lp.NegInf? <==> lps.extra.value.token in zeros))
  }

  /** The masses of the known tokens. */
  ghost predicate Masses(m: Math, cut: Cut, lps: Scores, p: real, q: real) {
    RowsExist(cut, lps) && p == Sum(Ps(m, Cells(cut, lps))) && q == Sum(Qs(m, Cells(cut, lps)))
  }

  /** The candidate leaves mass for the rest, and the reference's known mass is at most one. */
  ghost predicate Open(m: Math, cut: Cut, lps: Scores) {
    exists p, q :: Masses(m, cut, lps, p, q) && p <= 1.0 && q < 1.0
  }

  lemma RowValueOf(ids: seq<int>, lps: seq<Entry>, k: int) returns (i: nat)
    requires |ids| == |lps| && RowOf(ids, lps).Some? && k in RowOf(ids, lps).value.at
    ensures i < |ids| && ids[i] == k >= 0 && lps[i] == Known(RowOf(ids, lps).value.at[k])
  {
    GatheredMeaning(ids, lps, |ids|);
    i :| 0 <= i < |ids| && LastAt(ids, lps, i, |ids|, k) && lps[i] == Known(RowOf(ids, lps).value.at[k]);
  }

  lemma PrefixUsable(ids: seq<int>, lps: seq<Entry>, k: nat)
    requires |ids| == |lps| && k <= |ids| && RowOf(ids, lps).Some? && HasReal(ids[..k])
    ensures RowOf(ids[..k], lps[..k]).Some?
  {
    UsableRow(ids, lps);
    UsableRow(ids[..k], lps[..k]);
    assert !BadRow(ids, lps);
    forall i | 0 <= i < k && RealAt(ids[..k], lps[..k], i) ensures !lps[..k][i].NaN? {
      assert RealAt(ids, lps, i);
    }
  }

  lemma ShortRowsExist(cut: Cut, lps: Scores)
    requires Usable(cut) && Scored(cut, lps) && RowsExist(cut, lps)
    ensures RowsExist(Short(cut), ShortScores(cut, lps))
  {
    PrefixUsable(cut.refIds, lps.ref, cut.kr);
    PrefixUsable(cut.candIds, lps.cand, cut.kc);
  }

  lemma TokensAre(cut: Cut, lps: Scores, t: int)
    requires Scored(cut, lps) && RowsExist(cut, lps)
    requires if lps.extra.None? then cut.actual.None?
             else cut.actual == Some(lps.extra.value.token) && lps.extra.value.p.Known? && lps.extra.value.q.Known?
    ensures t in Tokens(cut, lps) <==> KnownIn(cut, t)
  {
    PartitionMeaning(RowOf(cut.refIds, lps.ref).value, RowOf(cut.candIds, lps.cand).value, lps.extra, t);
    UsableRow(cut.refIds, lps.ref);
    UsableRow(cut.candIds, lps.cand);
  }

  lemma ExtraMatches(cut: Cut, lps: Scores)
    requires Scored(cut, lps) && RowsExist(cut, lps) && ActualScores(cut, lps)
    ensures ExtraMatchesRows(RowOf(cut.refIds, lps.ref).value, RowOf(cut.candIds, lps.cand).value, lps.extra)
  {
    var ref, cand := RowOf(cut.refIds, lps.ref).value, RowOf(cut.candIds, lps.cand).value;
    if lps.extra.Some? && lps.extra.value.token in ref.at && lps.extra.value.token in cand.at {
      var i := RowValueOf(cut.refIds, lps.ref, lps.extra.value.token);
      assert RealAt(cut.refIds, lps.ref, i);
      var j := RowValueOf(cut.candIds, lps.cand, lps.extra.value.token);
      assert RealAt(cut.candIds, lps.cand, j);
    }
  }

  /** A known token's candidate score is a zero only if the token is one of the zeros. */
  lemma ZeroCell(cut: Cut, lps: Scores, zeros: set<int>, i: nat)
    requires RowsExist(cut, lps) && ZerosAt(cut, lps, zeros) && i < |Cells(cut, lps)|
    ensures Cells(cut, lps)[i].q.NegInf? ==> Tokens(cut, lps)[i] in zeros
  {
    var ref, cand := RowOf(cut.refIds, lps.ref).value, RowOf(cut.candIds, lps.cand).value;
    var t := Tokens(cut, lps)[i];
    assert t in Tokens(cut, lps);
    PartitionMeaning(ref, cand, lps.extra, t);
    if t in ref.at && t in cand.at {
      var j := RowValueOf(cut.candIds, lps.cand, t);
      assert RealAt(cut.candIds, lps.cand, j);
    }
  }

  /** With a mass below one and no dropped zero, refinement holds. */
  lemma NoDroppedZero(m: Math, cut: Cut, lps: Scores, zeros: set<int>, tol: real)
    requires Lawful(m) && Usable(cut) && ZerosAt(cut, lps, zeros) && Open(m, cut, lps)
    requires forall t :: Dropped(cut, t) ==> t !in zeros
    ensures Refines(m, cut, lps, tol)
  {
    hide Lawful, Dropped, KnownCells, KnownTokens, RowOf;
    ShortRowsExist(cut, lps);
    ExtraMatches(cut, lps);
    var tokens, cells, low := Tokens(cut, lps), Cells(cut, lps), Tokens(Short(cut), ShortScores(cut, lps));
    forall i | 0 <= i < |tokens| && tokens[i] !in low ensures !Hit(m, cells[i]) {
      var t := tokens[i];
      assert t in tokens;
      TokensAre(cut, lps, t);
      TokensAre(Short(cut), ShortScores(cut, lps), t);
      assert Dropped(cut, t) by { DroppedIs(cut, t); }
      ZeroCell(cut, lps, zeros, i);
    }
    RefinementInK(m, cut.refIds, lps.ref, cut.candIds, lps.cand, lps.extra, tol, cut.kr, cut.kc);
  }

  lemma DroppedIs(cut: Cut, t: int)
    requires Proper(cut)
    ensures Dropped(cut, t) <==> KnownIn(cut, t) && !KnownIn(Short(cut), t)
  {
  }

  // ---------------------------------------------------------------- scores of two kinds

  /** Every token of the set has cell `a`, every other token cell `b`. */
  function KindScores(cut: Cut, zeros: set<int>, a: Cell, b: Cell): Scores {
    Scores(ScoresFor(cut.refIds, zeros, a.p, b.p), ScoresFor(cut.candIds, zeros, a.q, b.q),
           match cut.actual
           case None => None
           case Some(t) => Some(Extra(t, Known(if t in zeros then a.p else b.p),
                                      Known(if t in zeros then a.q else b.q))))
  }

  /** The cells of scores of two kinds. */
  ghost predicate CellsOf(cut: Cut, lps: Scores, zeros: set<int>, a: Cell, b: Cell) {
    && RowsExist(cut, lps) && Distinct(Tokens(cut, lps)) && |Tokens(cut, lps)| <= |cut.refIds| + 1
    && (forall t :: t in Tokens(cut, lps) <==> KnownIn(cut, t))
    && TwoKinds(Tokens(cut, lps), Cells(cut, lps), zeros, a, b)
  }

  lemma ScoredCells(cut: Cut, zeros: set<int>, a: Cell, b: Cell)
    requires HasReal(cut.refIds) && HasReal(cut.candIds)
    ensures CellsOf(cut, KindScores(cut, zeros, a, b), zeros, a, b)
  {
    var lps := KindScores(cut, zeros, a, b);
    RowOfScores(cut.refIds, zeros, a.p, b.p);
    RowOfScores(cut.candIds, zeros, a.q, b.q);
    var ref, cand := RowOf(cut.refIds, lps.ref).value, RowOf(cut.candIds, lps.cand).value;
    KnownTokensDistinct(ref, cand, lps.extra);
    KeysBounded(cut.refIds, lps.ref, |cut.refIds|);
    SharedBounded(ref.keys, cand.at);
    var tokens, cells := Tokens(cut, lps), Cells(cut, lps);
    forall t ensures t in tokens <==> KnownIn(cut, t) {
      TokensAre(cut, lps, t);
    }
    forall i | 0 <= i < |tokens| ensures cells[i] == if tokens[i] in zeros then a else b {
      var t := tokens[i];
      assert t in tokens;
      PartitionMeaning(ref, cand, lps.extra, t);
    }
  }

  lemma KindScoresCut(cut: Cut, zeros: set<int>, a: Cell, b: Cell)
    requires Proper(cut)
    ensures ShortScores(cut, KindScores(cut, zeros, a, b)) == KindScores(Short(cut), zeros, a, b)
  {
    ScoresTruncate(cut.refIds, zeros, a.p, b.p, cut.kr);
    ScoresTruncate(cut.candIds, zeros, a.q, b.q, cut.kc);
  }

  lemma ScoresTruncate(ids: seq<int>, zeros: set<int>, a: Logprob, b: Logprob, k: nat)
    requires k <= |ids|
    ensures ScoresFor(ids, zeros, a, b)[..k] == ScoresFor(ids[..k], zeros, a, b)
  {
  }

  /** Both partitions at once. */
  lemma CutCells(cut: Cut, zeros: set<int>, a: Cell, b: Cell)
    requires Usable(cut)
    ensures
      var lps := KindScores(cut, zeros, a, b);
      CellsOf(cut, lps, zeros, a, b) && CellsOf(Short(cut), ShortScores(cut, lps), zeros, a, b) && |cut.refIds| > 0
  {
    hide CellsOf, KindScores, ShortScores;
    MoreReal(cut.refIds, cut.kr);
    MoreReal(cut.candIds, cut.kc);
    KindScoresCut(cut, zeros, a, b);
    ScoredCells(cut, zeros, a, b);
    ScoredCells(Short(cut), zeros, a, b);
  }

  lemma KindZeros(cut: Cut, zeros: set<int>, a: Cell, b: Cell, none: set<int>)
    requires a.p.Fin? && b.p.Fin? && b.q.Fin?
    requires if a.q.NegInf? then none == zeros else none == {}
    ensures ZerosAt(cut, KindScores(cut, zeros, a, b), none)
  {
  }

  lemma MoreReal(ids: seq<int>, k: nat)
    requires k <= |ids| && HasReal(ids[..k])
    ensures HasReal(ids) && |ids| > 0
  {
    var i :| 0 <= i < k && ids[..k][i] >= 0;
    assert ids[i] >= 0;
  }

  /** The kept tokens are fewer than the known ones by at least one dropped zero. */
  lemma FewerZeros(cut: Cut, tokens: seq<int>, few: seq<int>, zeros: set<int>, t: int)
    requires Proper(cut) && Distinct(tokens) && Distinct(few) && Dropped(cut, t) && t in zeros
    requires (forall u :: u in tokens <==> KnownIn(cut, u)) && forall u :: u in few <==> KnownIn(Short(cut), u)
    ensures CountIn(few, zeros) < CountIn(tokens, zeros)
  {
    forall j | 0 <= j < |few| ensures few[j] in tokens {
      var u := few[j];
      assert u in few;
      KeptIsKnown(cut, u);
    }
    assert t in tokens && t !in few;
    FewerMarked(tokens, few, zeros, t);
  }

  // ---------------------------------------------------------------- scores that break the claim

  /** A reference probability so small that, floored, it outweighs anything `n` such tokens can gain. */
  lemma SmallProbability(m: Math, n: nat) returns (d: real)
    requires Lawful(m)
    ensures 0.0 < d && Times(n, d) < Q_FLOOR
    ensures TermLp(m, Fin(m.ln(d)), NegInf).0 == -Times(n + 1, d)
  {
    var k := n as real + 1.0;
    var e := InverseExp(m, n as real, k);
    var w;
    d, w := FlooredTerm(m, e, -k);
    hide Lawful, TermLp;
    FloorFacts(n, e, d, k, w);
  }

  lemma FloorFacts(n: nat, e: real, d: real, k: real, w: real)
    requires d == Q_FLOOR * e && n as real * e < 1.0 && k == n as real + 1.0 && w == d * -k
    ensures Times(n, d) < Q_FLOOR && w == -Times(n + 1, d)
  {
    TimesIsProduct(n, d);
    var share := n as real * e;
    assert n as real * d == Q_FLOOR * share;
    assert d * -k == -(n as real * d) - d;
  }

  lemma ExpPair(m: Math, k: real)
    requires Lawful(m)
    ensures m.exp(-k) > 0.0 && m.ln(m.exp(-k)) == -k && m.exp(k) >= 1.0 + k && m.exp(-k) * m.exp(k) == 1.0
  {
    assert ExpAboveTangent(m, -k) && ExpAboveTangent(m, k) && ExpOfSum(m, -k, k);
    assert LnInvertsExp(m, -k);
    assert -k + k == 0.0;
    ExpOfZero(m);
  }

  lemma InverseExp(m: Math, n: real, k: real) returns (e: real)
    requires Lawful(m) && n >= 0.0 && k == n + 1.0
    ensures e > 0.0 && m.ln(e) == -k && n * e < 1.0
  {
    ExpPair(m, k);
    e := m.exp(-k);
    var f := m.exp(k);
    hide Lawful;
    BelowInverse(n, e, f);
  }

  /** The floored term of the floor times `e`. */
  lemma FlooredTerm(m: Math, e: real, l: real) returns (d: real, w: real)
    requires Lawful(m) && e > 0.0 && m.ln(e) == l
    ensures d == Q_FLOOR * e && d > 0.0 && w == d * l && TermLp(m, Fin(m.ln(d)), NegInf).0 == w
  {
    d := Q_FLOOR * e;
    w := d * l;
    LnOfProduct(m, Q_FLOOR, e);
    assert LnInvertsExp(m, d);
    assert m.ln(d) - m.ln(Q_FLOOR) == l;
  }

  lemma ExpOfZero(m: Math)
    requires Lawful(m)
    ensures m.exp(0.0) == 1.0
  {
    LnOfOne(m);
    assert LnInvertsExp(m, 1.0);
  }

  lemma BelowInverse(n: real, e: real, f: real)
    requires 0.0 <= n < f && e > 0.0 && e * f == 1.0
    ensures n * e < 1.0
  {
    var gap := f - n;
    var lost := PositiveProduct(e, gap);
    var all, kept := e * f, n * e;
    Split(e, n, gap, f, kept, lost);
    assert all == kept + lost;
  }

  lemma PositiveProduct(e: real, gap: real) returns (lost: real)
    requires e > 0.0 && gap > 0.0
    ensures lost == e * gap > 0.0
  {
    lost := e * gap;
  }

  lemma Split(e: real, n: real, gap: real, f: real, kept: real, lost: real)
    requires f == n + gap && kept == n * e && lost == e * gap
    ensures e * f == kept + lost
  {
    Distribute(e, n, gap);
  }

  /** A rest with at most the candidate's mass on the reference side. */
  lemma RestBelow(m: Math, p: real, q: real)
    requires Lawful(m) && 0.0 < p <= q
    ensures p - q <= TermLp(m, LogOf(m, p), LogOf(m, q)).0 <= 0.0
  {
    assert LnInvertsExp(m, p) && LnInvertsExp(m, q);
    assert TermLp(m, LogOf(m, p), LogOf(m, q)).0 == p * (m.ln(p) - m.ln(q));
    if p < q {
      LnIncreasing(m, p, q);
      Negative(p, m.ln(p) - m.ln(q));
    }
    TermAboveMass(m, Cell(LogOf(m, p), LogOf(m, q)));
    ProbOfLog(m, p);
    ProbOfLog(m, q);
  }

  lemma ProbOfFin(m: Math, x: real)
    requires Lawful(m) && x > 0.0
    ensures Prob(m, Fin(m.ln(x))) == x
  {
    assert LnInvertsExp(m, x);
  }

  lemma EqualSides(m: Math, e: real)
    ensures TermLp(m, Fin(m.ln(e)), Fin(m.ln(e))).0 == 0.0
  {
  }

  /** The divergence from the masses, when both leave something for the rest. */
  lemma KlFromMasses(m: Math, cells: seq<Cell>, tol: real)
    requires Sum(Ps(m, cells)) < 1.0 && Sum(Qs(m, cells)) < 1.0
    ensures
      var r := KlOfCells(m, cells, tol);
      && r.Valid?
      && r.kl == Sum(Terms(m, cells))
                 + TermLp(m, LogOf(m, 1.0 - Sum(Ps(m, cells))), LogOf(m, 1.0 - Sum(Qs(m, cells)))).0
  {
    hide TermLp, Terms, Sum, Prob, LogOf, AnyFloored;
    LogRestMeaning(m, PSide(cells), tol);
    LogRestMeaning(m, QSide(cells), tol);
  }

  lemma TimesZero(n: nat)
    ensures Times(n, 0.0) == 0.0
  {
    TimesIsProduct(n, 0.0);
  }

  lemma ZeroAndEqual(m: Math, d: real, e: real)
    requires Lawful(m) && d > 0.0 && e > 0.0
    ensures Prob(m, Fin(m.ln(d))) == d && Prob(m, Fin(m.ln(e))) == e && Prob(m, NegInf) == 0.0
    ensures TermLp(m, Fin(m.ln(e)), Fin(m.ln(e))).0 == 0.0
  {
    ProbOfFin(m, d);
    ProbOfFin(m, e);
    EqualSides(m, e);
  }

  lemma TwoKindsSums(m: Math, tokens: seq<int>, cells: seq<Cell>, zeros: set<int>, d: real, e: real, t: real)
    requires Lawful(m) && d > 0.0 && e > 0.0
    requires TwoKinds(tokens, cells, zeros, Cell(Fin(m.ln(d)), NegInf), Cell(Fin(m.ln(e)), Fin(m.ln(e))))
    requires TermLp(m, Fin(m.ln(d)), NegInf).0 == t
    ensures
      var z := CountIn(tokens, zeros);
      && Sum(Ps(m, cells)) == Times(z, d) + Times(|tokens| - z, e)
      && Sum(Qs(m, cells)) == Times(|tokens| - z, e) && Sum(Terms(m, cells)) == Times(z, t)
  {
    hide KlOfCells, TermLp, Terms, Ps, Qs, Sum, Prob, TwoKinds, Lawful, CountIn, Times;
    ZeroAndEqual(m, d, e);
    KindSums(m, tokens, cells, zeros, Cell(Fin(m.ln(d)), NegInf), Cell(Fin(m.ln(e)), Fin(m.ln(e))));
    TimesZero(CountIn(tokens, zeros));
    TimesZero(|tokens| - CountIn(tokens, zeros));
  }

  /** The divergence of two-kinds cells: floored tokens at `d`, the others equal on both sides. */
  lemma TwoKindsValue(m: Math, tokens: seq<int>, cells: seq<Cell>, zeros: set<int>, d: real, e: real, t: real,
                      tol: real)
    requires Lawful(m) && d > 0.0 && e > 0.0
    requires TwoKinds(tokens, cells, zeros, Cell(Fin(m.ln(d)), NegInf), Cell(Fin(m.ln(e)), Fin(m.ln(e))))
    requires TermLp(m, Fin(m.ln(d)), NegInf).0 == t
    requires Times(|tokens|, d) < 0.5 && Times(|tokens|, e) <= 0.5
    ensures
      var z := CountIn(tokens, zeros);
      var r := KlOfCells(m, cells, tol);
      && r.Valid? && Times(z, t) - Times(z, d) <= r.kl <= Times(z, t)
      && Sum(Ps(m, cells)) <= 1.0 && Sum(Qs(m, cells)) < 1.0
  {
    hide KlOfCells, TermLp, Terms, Ps, Qs, Sum, TwoKinds, Lawful, LogOf, CountIn, Times;
    var z := CountIn(tokens, zeros);
    TwoKindsSums(m, tokens, cells, zeros, d, e, t);
    TimesGrows(z, |tokens|, d);
    TimesGrows(|tokens| - z, |tokens|, e);
    KlFromMasses(m, cells, tol);
    RestBelow(m, 1.0 - Sum(Ps(m, cells)), 1.0 - Sum(Qs(m, cells)));
  }

  /** Scores that break the claim when token `t` is dropped and a candidate zero. */
  lemma DroppedZeroBreaks(m: Math, cut: Cut, zeros: set<int>, t: int, tol: real) returns (lps: Scores)
    requires Lawful(m) && Usable(cut) && Dropped(cut, t) && t in zeros
    ensures ZerosAt(cut, lps, zeros) && Open(m, cut, lps) && !Refines(m, cut, lps, tol)
  {
    hide CellsOf, KlOfCells, Cells, Dropped, Sum, Ps, Qs, TermLp, Lawful, ZerosAt, KindScores, RowsExist;
    var n := |cut.refIds| + 1;
    var d := SmallProbability(m, n);
    var e := HalfShare(n);
    var a, b := Cell(Fin(m.ln(d)), NegInf), Cell(Fin(m.ln(e)), Fin(m.ln(e)));
    lps := KindScores(cut, zeros, a, b);
    CutCells(cut, zeros, a, b);
    KindZeros(cut, zeros, a, b, zeros);
    Broken(m, cut, lps, zeros, t, d, e, tol);
  }

  lemma HalfShare(n: nat) returns (e: real)
    requires n > 0
    ensures e > 0.0 && Times(n, e) <= 0.5
  {
    e := 0.5 / n as real;
    TimesIsProduct(n, e);
    assert n as real * e == 0.5;
  }

  lemma Broken(m: Math, cut: Cut, lps: Scores, zeros: set<int>, t: int, d: real, e: real, tol: real)
    requires Lawful(m) && Proper(cut) && Scored(cut, lps) && d > 0.0 && e > 0.0 && Dropped(cut, t) && t in zeros
    requires
      var a, b := Cell(Fin(m.ln(d)), NegInf), Cell(Fin(m.ln(e)), Fin(m.ln(e)));
      CellsOf(cut, lps, zeros, a, b) && CellsOf(Short(cut), ShortScores(cut, lps), zeros, a, b)
    requires Times(|cut.refIds| + 1, d) < Q_FLOOR && Times(|cut.refIds| + 1, e) <= 0.5
    requires TermLp(m, Fin(m.ln(d)), NegInf).0 == -Times(|cut.refIds| + 2, d)
    ensures Open(m, cut, lps) && !Refines(m, cut, lps, tol)
  {
    hide KlOfCells, TermLp, Terms, Ps, Qs, Sum, KnownTokens, KnownCells, Lawful, CountIn, Dropped, Distinct, TwoKinds;
    var tokens, few := Tokens(cut, lps), Tokens(Short(cut), ShortScores(cut, lps));
    var w := TermLp(m, Fin(m.ln(d)), NegInf).0;
    FewerZeros(cut, tokens, few, zeros, t);
    BrokenValues(m, tokens, Cells(cut, lps), few, Cells(Short(cut), ShortScores(cut, lps)), zeros,
                 |cut.refIds| + 1, d, e, w, tol);
    assert Masses(m, cut, lps, Sum(Ps(m, Cells(cut, lps))), Sum(Qs(m, Cells(cut, lps))));
  }

  lemma BrokenValues(m: Math, tokens: seq<int>, high: seq<Cell>, few: seq<int>, low: seq<Cell>, zeros: set<int>, n: nat,
                     d: real, e: real, w: real, tol: real)
    requires Lawful(m) && d > 0.0 && e > 0.0 && |few| <= n && |tokens| <= n
    requires
      var a, b := Cell(Fin(m.ln(d)), NegInf), Cell(Fin(m.ln(e)), Fin(m.ln(e)));
      TwoKinds(tokens, high, zeros, a, b) && TwoKinds(few, low, zeros, a, b)
    requires CountIn(few, zeros) < CountIn(tokens, zeros)
    requires Times(n, d) < Q_FLOOR && Times(n, e) <= 0.5 && TermLp(m, Fin(m.ln(d)), NegInf).0 == w == -Times(n + 1, d)
    ensures KlOfCells(m, high, tol).Valid? && KlOfCells(m, low, tol).Valid?
    ensures KlOfCells(m, high, tol).kl < KlOfCells(m, low, tol).kl
    ensures Sum(Ps(m, high)) <= 1.0 && Sum(Qs(m, high)) < 1.0
  {
    hide KlOfCells, TermLp, Terms, Ps, Qs, Sum, Lawful, CountIn, TwoKinds;
    TimesGrows(|tokens|, n, d);
    TimesGrows(|tokens|, n, e);
    TimesGrows(|few|, n, d);
    TimesGrows(|few|, n, e);
    TwoKindsValue(m, tokens, high, zeros, d, e, w, tol);
    TwoKindsValue(m, few, low, zeros, d, e, w, tol);
    var z, y := CountIn(tokens, zeros), CountIn(few, zeros);
    TimesGrows(0, n + 1, d);
    TimesGrows(y + 1, z, w);
    TimesGrows(y, n, d);
    assert Times(y + 1, w) == Times(y, w) + w;
    assert Times(n + 1, d) == Times(n, d) + d;
  }

  /** Refinement in K holds for all scores with given candidate zeros exactly when no zero is dropped; the actual
      token never is. */
  lemma RefinementIsExact(m: Math, cut: Cut, zeros: set<int>, tol: real)
    requires Lawful(m) && Usable(cut)
    ensures (forall lps | ZerosAt(cut, lps, zeros) :: Open(m, cut, lps) ==> Refines(m, cut, lps, tol))
            <==> forall t :: Dropped(cut, t) ==> t !in zeros
  {
    hide Dropped, Refines, Open, Lawful;
    if t :| Dropped(cut, t) && t in zeros {
      var lps := DroppedZeroBreaks(m, cut, zeros, t, tol);
      assert ZerosAt(cut, lps, zeros) && Open(m, cut, lps);
      assert !Refines(m, cut, lps, tol);
    } else {
      forall lps | ZerosAt(cut, lps, zeros) && Open(m, cut, lps) ensures Refines(m, cut, lps, tol) {
        NoDroppedZero(m, cut, lps, zeros, tol);
      }
    }
  }
}
