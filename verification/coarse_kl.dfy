/** Coarse top-K Kullback-Leibler divergence of one position (scripts/fidelity/metrics.py).

    Probabilities travel as logprobs. `-inf` is a genuine zero, NaN marks a missing entry, and every
    other logprob is an exact real. The partition is data dependent: one cell per token present in
    both top-K rows, one for the actual token when it is outside that set, and one for the rest. */
module CoarseKl {
  import opened Options
  import opened RealMath
  import opened Sums

  const CLAMP_TOL := 0.000001
  const Q_FLOOR := 0.000000000001

  datatype Logprob = NegInf | Fin(v: real)

  /** A raw row entry: NaN, or a logprob. */
  datatype Entry = NaN | Known(lp: Logprob)

  /** One cell of the partition: reference and candidate logprob. */
  datatype Cell = Cell(p: Logprob, q: Logprob)

  /** The result record; `Invalid` is the source's record with a NaN divergence and all flags false. */
  datatype KL = Invalid | Valid(kl: real, clamped: bool, floored: bool)

  /** The actual token with its logprob on either side. */
  datatype Extra = Extra(token: int, p: Entry, q: Entry)

  // ---------------------------------------------------------------- probabilities of logprobs

  function Prob(m: Math, lp: Logprob): real {
    match lp
    case NegInf => 0.0
    case Fin(v) => m.exp(v)
  }

  /** The logprob of a probability. */
  function LogOf(m: Math, x: real): Logprob {
    if x <= 0.0 then NegInf else Fin(m.ln(x))
  }

  function Probs(m: Math, lps: seq<Logprob>): (r: seq<real>)
    ensures |r| == |lps|
    ensures forall i :: 0 <= i < |r| ==> r[i] == Prob(m, lps[i])
  {
    seq(|lps|, i requires 0 <= i < |lps| => Prob(m, lps[i]))
  }

  function PSide(cells: seq<Cell>): (r: seq<Logprob>)
    ensures |r| == |cells|
    ensures forall i :: 0 <= i < |r| ==> r[i] == cells[i].p
  {
    seq(|cells|, i requires 0 <= i < |cells| => cells[i].p)
  }

  function QSide(cells: seq<Cell>): (r: seq<Logprob>)
    ensures |r| == |cells|
    ensures forall i :: 0 <= i < |r| ==> r[i] == cells[i].q
  {
    seq(|cells|, i requires 0 <= i < |cells| => cells[i].q)
  }

  function Ps(m: Math, cells: seq<Cell>): seq<real> {
    Probs(m, PSide(cells))
  }

  function Qs(m: Math, cells: seq<Cell>): seq<real> {
    Probs(m, QSide(cells))
  }

  // ---------------------------------------------------------------- known-cell terms

  /** A divergence term and whether the candidate's genuine zero was replaced by the floor. */
  function TermLp(m: Math, p: Logprob, q: Logprob): (real, bool) {
    if p.NegInf? then (0.0, false)
    else if q.NegInf? then (m.exp(p.v) * (p.v - m.ln(Q_FLOOR)), m.exp(p.v) > 0.0)
    else (m.exp(p.v) * (p.v - q.v), false)
  }

  function Terms(m: Math, cells: seq<Cell>): (r: seq<real>)
    ensures |r| == |cells|
    ensures forall i :: 0 <= i < |r| ==> r[i] == TermLp(m, cells[i].p, cells[i].q).0
  {
    seq(|cells|, i requires 0 <= i < |cells| => TermLp(m, cells[i].p, cells[i].q).0)
  }

  predicate Hit(m: Math, c: Cell) {
    TermLp(m, c.p, c.q).1
  }

  predicate AnyFloored(m: Math, cells: seq<Cell>) {
    exists i :: 0 <= i < |cells| && Hit(m, cells[i])
  }

  // ---------------------------------------------------------------- the rest cell

  datatype Rest = RestInconsistent | RestMass(mass: real, clamped: bool)
  datatype LogRest = Inconsistent | Rest(lp: Logprob, clamped: bool)

  /** The values of the entries that are not `-inf`, in order. */
  function FiniteValues(lps: seq<Logprob>): seq<real> {
    if |lps| == 0 then []
    else
      var front := FiniteValues(lps[..|lps| - 1]);
      if lps[|lps| - 1].Fin? then front + [lps[|lps| - 1].v] else front
  }

  function Exps(m: Math, vs: seq<real>): (r: seq<real>)
    ensures |r| == |vs|
    ensures forall i :: 0 <= i < |r| ==> r[i] == m.exp(vs[i])
  {
    seq(|vs|, i requires 0 <= i < |vs| => m.exp(vs[i]))
  }

  function Largest(vs: seq<real>): (top: real)
    requires |vs| > 0
    ensures top in vs && forall i :: 0 <= i < |vs| ==> vs[i] <= top
  {
    if |vs| == 1 then vs[0]
    else
      var best := Largest(vs[..|vs| - 1]);
      if vs[|vs| - 1] > best then vs[|vs| - 1] else best
  }

  /** `list.remove`: drops the first occurrence. */
  function RemoveFirst(vs: seq<real>, x: real): seq<real>
    requires x in vs
  {
    if vs[0] == x then vs[1..] else [vs[0]] + RemoveFirst(vs[1..], x)
  }

  /** The compensated complement: -expm1(largest) minus the other cells' probabilities. */
  function RestFromCells(m: Math, lps: seq<Logprob>, tol: real): Rest {
    var finite := FiniteValues(lps);
    if |finite| == 0 then RestMass(1.0, false)
    else
      var top := Largest(finite);
      var rest := -(m.exp(top) - 1.0) - Sum(Exps(m, RemoveFirst(finite, top)));
      if rest >= 0.0 then RestMass(rest, false)
      else if rest >= -tol then RestMass(0.0, true)
      else RestInconsistent
  }

  /** Logprob of the rest cell: `log1p(-mass)` for a known mass of at most one half, the compensated
      complement above it. */
  function LogRestOf(m: Math, lps: seq<Logprob>, tol: real): LogRest {
    var mass := Sum(Exps(m, FiniteValues(lps)));
    if mass <= 0.5 then Rest(Fin(m.ln(1.0 - mass)), false)
    else
      match RestFromCells(m, lps, tol)
      case RestInconsistent => Inconsistent
      case RestMass(rest, clamped) => Rest(if rest > 0.0 then Fin(m.ln(rest)) else NegInf, clamped)
  }

  /** What the rest of a known mass has to be, whichever branch computes it. */
  function RestOfMass(m: Math, mass: real, tol: real): LogRest {
    if mass <= 1.0 then Rest(LogOf(m, 1.0 - mass), false)
    else if mass <= 1.0 + tol then Rest(NegInf, true)
    else Inconsistent
  }

  lemma {:induction false} FiniteMass(m: Math, lps: seq<Logprob>)
    ensures Sum(Exps(m, FiniteValues(lps))) == Sum(Probs(m, lps))
  {
    if |lps| == 0 {
    } else {
      var n := |lps| - 1;
      FiniteMass(m, lps[..n]);
      assert Probs(m, lps)[..n] == Probs(m, lps[..n]);
      if lps[n].Fin? {
        assert Exps(m, FiniteValues(lps)) == Exps(m, FiniteValues(lps[..n])) + [m.exp(lps[n].v)];
        SumSnoc(Exps(m, FiniteValues(lps[..n])), m.exp(lps[n].v));
      }
    }
  }

  lemma ExpsCons(m: Math, v: real, vs: seq<real>)
    ensures Sum(Exps(m, [v] + vs)) == m.exp(v) + Sum(Exps(m, vs))
  {
    assert Exps(m, [v] + vs) == [m.exp(v)] + Exps(m, vs);
    SumCons(m.exp(v), Exps(m, vs));
  }

  lemma {:induction false} ExpsOfRemoved(m: Math, vs: seq<real>, x: real)
    requires x in vs
    ensures Sum(Exps(m, RemoveFirst(vs, x))) == Sum(Exps(m, vs)) - m.exp(x)
  {
    hide Sum, Exps;
    var first, others := vs[0], vs[1..];
    assert vs == [first] + others;
    ExpsCons(m, first, others);
    if first == x {
      assert RemoveFirst(vs, x) == others;
    } else {
      ExpsOfRemoved(m, others, x);
      assert RemoveFirst(vs, x) == [first] + RemoveFirst(others, x);
      ExpsCons(m, first, RemoveFirst(others, x));
    }
  }

  /** Both branches of the rest computation give the logarithm of one minus the known mass; a mass
      above one is clamped within the tolerance and inconsistent beyond it. */
  lemma LogRestMeaning(m: Math, lps: seq<Logprob>, tol: real)
    ensures LogRestOf(m, lps, tol) == RestOfMass(m, Sum(Probs(m, lps)), tol)
  {
    FiniteMass(m, lps);
    var finite := FiniteValues(lps);
    if |finite| == 0 {
      assert Exps(m, finite) == [];
    } else {
      ExpsOfRemoved(m, finite, Largest(finite));
    }
  }

  // ---------------------------------------------------------------- divergence of a cell list

  /** The divergence once the known cells are chosen. */
  function KlOfCells(m: Math, cells: seq<Cell>, tol: real): KL {
    var restP, restQ := LogRestOf(m, PSide(cells), tol), LogRestOf(m, QSide(cells), tol);
    if restP.Inconsistent? || restQ.Inconsistent? then Invalid
    else
      var last := TermLp(m, restP.lp, restQ.lp);
      Valid(Sum(Terms(m, cells)) + last.0, restP.clamped || restQ.clamped, AnyFloored(m, cells) || last.1)
  }

  lemma TermsSnoc(m: Math, cells: seq<Cell>, c: Cell)
    ensures Sum(Terms(m, cells + [c])) == Sum(Terms(m, cells)) + TermLp(m, c.p, c.q).0
    ensures AnyFloored(m, cells + [c]) == (AnyFloored(m, cells) || Hit(m, c))
  {
    var all := cells + [c];
    assert Terms(m, all) == Terms(m, cells) + [TermLp(m, c.p, c.q).0];
    SumSnoc(Terms(m, cells), TermLp(m, c.p, c.q).0);
    assert all[|cells|] == c;
    assert forall i :: 0 <= i < |cells| ==> all[i] == cells[i];
    if AnyFloored(m, cells) {
      var i :| 0 <= i < |cells| && Hit(m, cells[i]);
      assert Hit(m, all[i]);
    }
    if Hit(m, c) {
      assert Hit(m, all[|cells|]);
    }
  }

  /** Accumulates the terms of the known cells. */
  method AddTerms(m: Math, cells: seq<Cell>) returns (total: real, floored: bool)
    ensures total == Sum(Terms(m, cells)) && floored == AnyFloored(m, cells)
  {
    total, floored := 0.0, false;
    for i := 0 to |cells|
      invariant total == Sum(Terms(m, cells[..i]))
      invariant floored == AnyFloored(m, cells[..i])
    {
      var value := TermLp(m, cells[i].p, cells[i].q);
      TermsSnoc(m, cells[..i], cells[i]);
      assert cells[..i + 1] == cells[..i] + [cells[i]];
      total, floored := total + value.0, floored || value.1;
    }
    assert cells[..|cells|] == cells;
  }

  /** The known cells' terms plus the rest cell. */
  method DivergenceOfCells(m: Math, cells: seq<Cell>, tol: real) returns (r: KL)
    ensures r == KlOfCells(m, cells, tol)
  {
    var restP, restQ := LogRestOf(m, PSide(cells), tol), LogRestOf(m, QSide(cells), tol);
    if restP.Inconsistent? || restQ.Inconsistent? {
      return Invalid;
    }
    var total, floored := AddTerms(m, cells);
    var last := TermLp(m, restP.lp, restQ.lp);
    r := Valid(total + last.0, restP.clamped || restQ.clamped, floored || last.1);
  }

  // ---------------------------------------------------------------- rows as ordered dictionaries

  /** An ordered dictionary: keys in order of first insertion, values as last written. */
  datatype Row = Row(keys: seq<int>, at: map<int, Logprob>)

  ghost predicate RowOk(row: Row) {
    Distinct(row.keys) && (forall k :: k in row.keys <==> k in row.at) && (forall k :: k in row.keys ==> k >= 0)
  }

  function Put(row: Row, k: int, lp: Logprob): (r: Row)
    requires RowOk(row) && k >= 0
    ensures RowOk(r)
  {
    if k in row.at then Row(row.keys, row.at[k := lp]) else Row(row.keys + [k], row.at[k := lp])
  }

  function Min(a: int, b: int): int {
    if a < b then a else b
  }

  /** The dictionary after the first `n` zipped entries; none once a real entry is NaN. */
  function Gathered(ids: seq<int>, lps: seq<Entry>, n: nat): (r: Option<Row>)
    requires n <= |ids| && n <= |lps|
    ensures r.Some? ==> RowOk(r.value)
  {
    if n == 0 then Some(Row([], map[]))
    else
      var before := Gathered(ids, lps, n - 1);
      if before.None? || ids[n - 1] < 0 then before
      else if lps[n - 1].NaN? then None
      else Some(Put(before.value, ids[n - 1], lps[n - 1].lp))
  }

  function RowOf(ids: seq<int>, lps: seq<Entry>): (r: Option<Row>)
    ensures r.Some? ==> RowOk(r.value) && |r.value.keys| > 0
  {
    var row := Gathered(ids, lps, Min(|ids|, |lps|));
    if row.Some? && |row.value.keys| > 0 then row else None
  }

  method BuildRow(ids: seq<int>, lps: seq<Entry>) returns (row: Option<Row>)
    ensures row == RowOf(ids, lps)
  {
    var built := Row([], map[]);
    var n := Min(|ids|, |lps|);
    for i := 0 to n
      invariant RowOk(built) && Gathered(ids, lps, i) == Some(built)
    {
      if ids[i] < 0 {
        continue;
      }
      if lps[i].NaN? {
        NaNIsFinal(ids, lps, i, n);
        return None;
      }
      built := Put(built, ids[i], lps[i].lp);
    }
    row := if |built.keys| > 0 then Some(built) else None;
  }

  lemma {:induction false} NaNIsFinal(ids: seq<int>, lps: seq<Entry>, i: nat, n: nat)
    requires i < n <= |ids| && n <= |lps| && ids[i] >= 0 && lps[i].NaN?
    ensures Gathered(ids, lps, n).None?
  {
    if i == n - 1 {
    } else {
      NaNIsFinal(ids, lps, i, n - 1);
    }
  }

  /** A real entry: it has a token id. */
  predicate RealAt(ids: seq<int>, lps: seq<Entry>, i: int) {
    0 <= i < |ids| && i < |lps| && ids[i] >= 0
  }

  /** The dictionary holds exactly the real ids, each with the logprob of its last occurrence, and
      exists exactly when no real entry is NaN. */
  lemma {:induction false} GatheredMeaning(ids: seq<int>, lps: seq<Entry>, n: nat)
    requires n <= |ids| && n <= |lps|
    ensures Gathered(ids, lps, n).Some? <==> forall i :: 0 <= i < n && RealAt(ids, lps, i) ==> lps[i].Known?
    ensures Gathered(ids, lps, n).Some? ==>
              var at := Gathered(ids, lps, n).value.at;
              && (forall k :: k in at ==> exists i :: 0 <= i < n && LastAt(ids, lps, i, n, k) && lps[i] == Known(at[k]))
              && (forall i :: 0 <= i < n && RealAt(ids, lps, i) ==> ids[i] in at)
  {
    if n == 0 {
    } else {
      GatheredMeaning(ids, lps, n - 1);
      var before := Gathered(ids, lps, n - 1);
      if before.Some? && Gathered(ids, lps, n).Some? {
        GatheredStep(ids, lps, n, before.value, Gathered(ids, lps, n).value);
      }
      hide LastAt;
      if ids[n - 1] >= 0 {
        assert RealAt(ids, lps, n - 1);
      }
    }
  }

  /** One more entry: a real id's score replaces what the dictionary had for it. */
  lemma GatheredStep(ids: seq<int>, lps: seq<Entry>, n: nat, before: Row, after: Row)
    requires 0 < n <= |ids| && n <= |lps|
    requires if ids[n - 1] < 0 then after == before
             else lps[n - 1].Known? && after.at == before.at[ids[n - 1] := lps[n - 1].lp]
    requires forall k :: k in before.at ==>
               exists i :: 0 <= i < n - 1 && LastAt(ids, lps, i, n - 1, k) && lps[i] == Known(before.at[k])
    ensures forall k :: k in after.at ==>
              exists i :: 0 <= i < n && LastAt(ids, lps, i, n, k) && lps[i] == Known(after.at[k])
  {
    forall k | k in after.at
      ensures exists i :: 0 <= i < n && LastAt(ids, lps, i, n, k) && lps[i] == Known(after.at[k])
    {
      if ids[n - 1] >= 0 && k == ids[n - 1] {
        assert LastAt(ids, lps, n - 1, n, k);
      } else {
        var i :| 0 <= i < n - 1 && LastAt(ids, lps, i, n - 1, k) && lps[i] == Known(before.at[k]);
        assert LastAt(ids, lps, i, n, k);
      }
    }
  }

  ghost predicate LastAt(ids: seq<int>, lps: seq<Entry>, i: int, n: nat, k: int) {
    RealAt(ids, lps, i) && i < n <= |ids| && ids[i] == k && forall j :: i < j < n ==> ids[j] != k
  }

  // ---------------------------------------------------------------- the whole position

  /** The reference tokens that the candidate row has too, in the reference row's order. */
  function Shared(keys: seq<int>, cand: map<int, Logprob>): (r: seq<int>)
    ensures forall k :: k in r <==> k in keys && k in cand
    ensures forall i :: 0 <= i < |r| ==> r[i] in keys && r[i] in cand
  {
    if |keys| == 0 then []
    else
      var last := keys[|keys| - 1];
      var front := Shared(keys[..|keys| - 1], cand);
      if last in cand then front + [last] else front
  }

  lemma {:induction false} SharedDistinct(keys: seq<int>, cand: map<int, Logprob>)
    requires Distinct(keys)
    ensures Distinct(Shared(keys, cand))
  {
    if |keys| == 0 {
    } else {
      SharedDistinct(keys[..|keys| - 1], cand);
    }
  }

  lemma SharedSnoc(keys: seq<int>, k: int, cand: map<int, Logprob>)
    ensures Shared([], cand) == []
    ensures Shared(keys + [k], cand) == Shared(keys, cand) + if k in cand then [k] else []
  {
    assert (keys + [k])[..|keys|] == keys;
  }

  function CellsAt(tokens: seq<int>, p: map<int, Logprob>, q: map<int, Logprob>): (r: seq<Cell>)
    requires forall i :: 0 <= i < |tokens| ==> tokens[i] in p && tokens[i] in q
    ensures |r| == |tokens|
    ensures forall i :: 0 <= i < |r| ==> r[i] == Cell(p[tokens[i]], q[tokens[i]])
  {
    seq(|tokens|, i requires 0 <= i < |tokens| => Cell(p[tokens[i]], q[tokens[i]]))
  }

  predicate UsesExtra(ref: Row, cand: Row, extra: Option<Extra>) {
    && extra.Some? && extra.value.token >= 0
    && !(extra.value.token in ref.at && extra.value.token in cand.at)
    && extra.value.p.Known? && extra.value.q.Known?
  }

  /** The tokens that have a cell of their own. */
  function KnownTokens(ref: Row, cand: Row, extra: Option<Extra>): seq<int> {
    Shared(ref.keys, cand.at) + if UsesExtra(ref, cand, extra) then [extra.value.token] else []
  }

  function KnownCells(ref: Row, cand: Row, extra: Option<Extra>): (r: seq<Cell>)
    requires RowOk(ref)
    ensures |r| == |KnownTokens(ref, cand, extra)|
  {
    var shared := Shared(ref.keys, cand.at);
    assert forall i :: 0 <= i < |shared| ==> shared[i] in ref.at by {
      forall i | 0 <= i < |shared| ensures shared[i] in ref.at {
        var k := shared[i];
        assert k in ref.keys;
      }
    }
    CellsAt(shared, ref.at, cand.at)
    + if UsesExtra(ref, cand, extra) then [Cell(extra.value.p.lp, extra.value.q.lp)] else []
  }

  /** The partition: a token has its own cell exactly when both rows hold it, or it is the actual token, known on
      both sides; its cell carries the rows' scores where both hold it and the actual token's scores otherwise. */
  lemma PartitionMeaning(ref: Row, cand: Row, extra: Option<Extra>, t: int)
    requires RowOk(ref) && RowOk(cand)
    ensures
      var tokens := KnownTokens(ref, cand, extra);
      && (t in tokens <==>
            (t in ref.at && t in cand.at)
            || (extra.Some? && extra.value.token == t >= 0 && extra.value.p.Known? && extra.value.q.Known?))
      && forall i :: 0 <= i < |tokens| && tokens[i] == t ==>
           KnownCells(ref, cand, extra)[i] == if t in ref.at && t in cand.at then Cell(ref.at[t], cand.at[t])
                                              else Cell(extra.value.p.lp, extra.value.q.lp)
  {
    var shared := Shared(ref.keys, cand.at);
    assert t in ref.keys <==> t in ref.at;
    forall i | 0 <= i < |shared| ensures shared[i] in ref.at && shared[i] in cand.at {
      var k := shared[i];
      assert k in ref.keys;
    }
  }

  /** Coarse divergence of a position from its two top-K rows and the actual token. */
  function CoarseKlOf(m: Math, refIds: seq<int>, refLps: seq<Entry>, candIds: seq<int>, candLps: seq<Entry>,
                      extra: Option<Extra>, tol: real): KL
  {
    var ref, cand := RowOf(refIds, refLps), RowOf(candIds, candLps);
    if ref.None? || cand.None? then Invalid
    else KlOfCells(m, KnownCells(ref.value, cand.value, extra), tol)
  }

  method CoarseDivergence(m: Math, refIds: seq<int>, refLps: seq<Entry>, candIds: seq<int>, candLps: seq<Entry>,
                          extra: Option<Extra>, tol: real := CLAMP_TOL) returns (r: KL)
    ensures r == CoarseKlOf(m, refIds, refLps, candIds, candLps, extra, tol)
  {
    var ref := BuildRow(refIds, refLps);
    var cand := BuildRow(candIds, candLps);
    if ref.None? || cand.None? {
      return Invalid;
    }
    r := DivergenceOfCells(m, KnownCells(ref.value, cand.value, extra), tol);
  }
}
