/** Per-position arrays of several run pairs put side by side (scripts/fidelity/analyze_campaign.py). A pair
    keeps its windows one after the other in one array; a view picks the windows that every pair has and
    lines the arrays up, so that a contrast and its floor are compared row by row. */
module PairView {

  /** One pair: where each window's rows are, and the rows of all windows. */
  datatype PairData<T> = PairData(index: map<string, (nat, nat)>, rows: seq<T>)

  /** All windows' rows, concatenated. */
  function Concat<T>(parts: seq<seq<T>>): seq<T> {
    if |parts| == 0 then [] else Concat(parts[..|parts| - 1]) + parts[|parts| - 1]
  }

  /** The part of a window; the last one when an id repeats. */
  function PartOf<T>(parts: seq<seq<T>>, wins: seq<string>, w: string): seq<T>
    requires |parts| == |wins| && w in wins
  {
    var n := |wins| - 1;
    if wins[n] == w then parts[n]
    else
      assert wins == wins[..n] + [wins[n]];
      PartOf(parts[..n], wins[..n], w)
  }

  /** The pair's table finds every window's own rows. */
  ghost predicate Tabulates<T>(p: PairData<T>, parts: seq<seq<T>>, wins: seq<string>)
    requires |parts| == |wins|
  {
    && p.rows == Concat(parts)
    && (forall w :: w in p.index <==> w in wins)
    && forall w :: w in p.index ==> FindsWindow(p, parts, wins, w)
  }

  ghost predicate FindsWindow<T>(p: PairData<T>, parts: seq<seq<T>>, wins: seq<string>, w: string)
    requires |parts| == |wins|
  {
    && w in p.index && w in wins
    && p.index[w].0 <= p.index[w].1 <= |p.rows|
    && p.rows[p.index[w].0..p.index[w].1] == PartOf(parts, wins, w)
  }

  /** Lays the windows out one after the other and records where each one is. */
  method BuildPair<T>(parts: seq<seq<T>>, wins: seq<string>) returns (p: PairData<T>)
    requires |parts| == |wins|
    ensures Tabulates(p, parts, wins)
  {
    var index: map<string, (nat, nat)>, start := map[], 0;
    assert parts[..0] == [];
    for k := 0 to |wins|
      invariant start == |Concat(parts[..k])|
      invariant Tabulates(PairData(index, Concat(parts[..k])), parts[..k], wins[..k])
    {
      var size := |parts[k]|;
      AddWindow(PairData(index, Concat(parts[..k])), parts, wins, k);
      index := index[wins[k] := (start, start + size)];
      start := start + size;
      assert parts[..k + 1][..k] == parts[..k] && parts[..k + 1][k] == parts[k];
    }
    assert parts[..|wins|] == parts && wins[..|wins|] == wins;
    p := PairData(index, Concat(parts));
  }

  lemma AddWindow<T>(p: PairData<T>, parts: seq<seq<T>>, wins: seq<string>, k: nat)
    requires |parts| == |wins| && k < |wins| && Tabulates(p, parts[..k], wins[..k])
    ensures
      var start := |Concat(parts[..k])|;
      var next := PairData(p.index[wins[k] := (start, start + |parts[k]|)], Concat(parts[..k + 1]));
      Tabulates(next, parts[..k + 1], wins[..k + 1])
  {
    var start := |Concat(parts[..k])|;
    var next := PairData(p.index[wins[k] := (start, start + |parts[k]|)], Concat(parts[..k + 1]));
    assert parts[..k + 1][..k] == parts[..k] && wins[..k + 1][..k] == wins[..k];
    assert wins[..k + 1] == wins[..k] + [wins[k]];
    forall w | w in next.index ensures FindsWindow(next, parts[..k + 1], wins[..k + 1], w) {
      if w != wins[k] {
        assert FindsWindow(p, parts[..k], wins[..k], w);
        assert next.rows[..start] == p.rows;
        assert next.rows[next.index[w].0..next.index[w].1] == p.rows[p.index[w].0..p.index[w].1];
      }
    }
  }

  // ---------------------------------------------------------------- views

  datatype View<T> = Disagree | Aligned(wids: seq<string>, win: seq<nat>, pos: seq<nat>, arrays: seq<seq<T>>)

  predicate InEvery<T>(pairs: seq<PairData<T>>, w: string) {
    forall p :: 0 <= p < |pairs| ==> w in pairs[p].index
  }

  /** The expected windows that every pair has, in the expected order. */
  function Common<T>(expected: seq<string>, pairs: seq<PairData<T>>): (r: seq<string>)
    ensures forall k :: 0 <= k < |r| ==> r[k] in expected && InEvery(pairs, r[k])
    ensures forall k :: 0 <= k < |expected| && InEvery(pairs, expected[k]) ==> expected[k] in r
  {
    if |expected| == 0 then []
    else
      var w := expected[|expected| - 1];
      Common(expected[..|expected| - 1], pairs) + if InEvery(pairs, w) then [w] else []
  }

  /** `x` stands before `y` somewhere in `s`. */
  ghost predicate Before(s: seq<string>, x: string, y: string) {
    exists a, b :: 0 <= a < b < |s| && s[a] == x && s[b] == y
  }

  /** The common windows keep the expected order. */
  lemma {:induction false} CommonKeepsOrder<T>(expected: seq<string>, pairs: seq<PairData<T>>, i: nat, j: nat)
    requires i < j < |Common(expected, pairs)|
    ensures Before(expected, Common(expected, pairs)[i], Common(expected, pairs)[j])
  {
    var init := expected[..|expected| - 1];
    var r := Common(expected, pairs);
    if j < |Common(init, pairs)| {
      CommonKeepsOrder(init, pairs, i, j);
      var a, b :| 0 <= a < b < |init| && init[a] == r[i] && init[b] == r[j];
      assert expected[a] == r[i] && expected[b] == r[j];
    } else {
      assert r[i] in init;
      var a :| 0 <= a < |init| && init[a] == r[i];
      assert expected[a] == r[i] && expected[|expected| - 1] == r[j];
    }
  }

  function SizeIn<T>(p: PairData<T>, w: string): int
    requires w in p.index
  {
    p.index[w].1 as int - p.index[w].0 as int
  }

  function Repeated(n: nat, x: nat): (r: seq<nat>)
    ensures |r| == n && forall i :: 0 <= i < n ==> r[i] == x
  {
    if n == 0 then [] else Repeated(n - 1, x) + [x]
  }

  function UpTo(n: nat): (r: seq<nat>)
    ensures |r| == n && forall i :: 0 <= i < n ==> r[i] == i + 1
  {
    if n == 0 then [] else UpTo(n - 1) + [n]
  }

  /** Window number of every row: `repeat(arange(n), sizes)`. */
  function WindowNumbers(sizes: seq<nat>): seq<nat> {
    if |sizes| == 0 then []
    else
      var last: nat := |sizes| - 1;
      WindowNumbers(sizes[..last]) + Repeated(sizes[last], last)
  }

  /** Position of every row inside its window, from one. */
  function Positions(sizes: seq<nat>): seq<nat> {
    if |sizes| == 0 then []
    else Positions(sizes[..|sizes| - 1]) + UpTo(sizes[|sizes| - 1])
  }

  function Lengths<T>(parts: seq<seq<T>>): (r: seq<nat>)
    ensures |r| == |parts| && forall k :: 0 <= k < |r| ==> r[k] == |parts[k]|
  {
    seq(|parts|, k requires 0 <= k < |parts| => |parts[k]|)
  }

  /** `x` is the entry at position `pos` (from one) of window `win`. */
  ghost predicate EntryAt<T>(parts: seq<seq<T>>, win: nat, pos: nat, x: T) {
    win < |parts| && 1 <= pos <= |parts[win]| && x == parts[win][pos - 1]
  }

  /** Row `j` of concatenated windows belongs to window `win[j]`, position `pos[j]`. */
  lemma {:induction false} RowsLineUp<T>(parts: seq<seq<T>>)
    ensures |Concat(parts)| == |WindowNumbers(Lengths(parts))| == |Positions(Lengths(parts))|
    ensures forall j :: 0 <= j < |Concat(parts)| ==>
              EntryAt(parts, WindowNumbers(Lengths(parts))[j], Positions(Lengths(parts))[j], Concat(parts)[j])
  {
    if |parts| == 0 {
    } else {
      var init := parts[..|parts| - 1];
      RowsLineUp(init);
      assert Lengths(parts)[..|parts| - 1] == Lengths(init);
      var win, pos, rows := WindowNumbers(Lengths(parts)), Positions(Lengths(parts)), Concat(parts);
      forall j | 0 <= j < |rows| ensures EntryAt(parts, win[j], pos[j], rows[j]) {
        if j < |Concat(init)| {
          assert EntryAt(init, WindowNumbers(Lengths(init))[j], Positions(Lengths(init))[j], Concat(init)[j]);
        }
      }
    }
  }

  /** The row of position `p` of window `w` comes before that of position `q` of window `x`. */
  predicate Precedes(w: nat, p: nat, x: nat, q: nat) { w < x || (w == x && p < q) }

  ghost predicate Ordered(win: seq<nat>, pos: seq<nat>)
    requires |win| == |pos|
  {
    forall i, j :: 0 <= i < j < |win| ==> Precedes(win[i], pos[i], win[j], pos[j])
  }

  /** Some row is position `p` of window `w`. */
  ghost predicate HasRow(win: seq<nat>, pos: seq<nat>, w: nat, p: nat)
    requires |win| == |pos|
  {
    exists j :: 0 <= j < |win| && win[j] == w && pos[j] == p
  }

  function SumOf(sizes: seq<nat>): nat { if |sizes| == 0 then 0 else SumOf(sizes[..|sizes| - 1]) + sizes[|sizes| - 1] }

  /** The rows come window by window with ascending positions, as many as there are positions. */
  lemma {:induction false} RowsOrdered(sizes: seq<nat>)
    ensures
      var win, pos := WindowNumbers(sizes), Positions(sizes);
      && |win| == |pos| == SumOf(sizes) && Ordered(win, pos)
      && forall j :: 0 <= j < |win| ==> win[j] < |sizes| && 1 <= pos[j] <= sizes[win[j]]
  {
    if |sizes| == 0 {
    } else {
      var init: seq<nat>, last := sizes[..|sizes| - 1], sizes[|sizes| - 1];
      RowsOrdered(init);
      RowsAppend(WindowNumbers(init), Positions(init), |init|, last);
      hide Ordered;
    }
  }

  /** One more window's rows after those of smaller window numbers. */
  lemma RowsAppend(win: seq<nat>, pos: seq<nat>, w: nat, n: nat)
    requires |win| == |pos| && Ordered(win, pos) && forall j :: 0 <= j < |win| ==> win[j] < w
    ensures Ordered(win + Repeated(n, w), pos + UpTo(n))
  {
    hide Repeated, UpTo;
    var x, y := win + Repeated(n, w), pos + UpTo(n);
    forall i, j | 0 <= i < j < |x| ensures Precedes(x[i], y[i], x[j], y[j]) {
      if j < |win| {
        assert Precedes(win[i], pos[i], win[j], pos[j]);
      }
    }
  }

  /** Every position of every window has its row. */
  lemma {:induction false} RowsComplete(sizes: seq<nat>, w: nat, p: nat)
    requires w < |sizes| && 1 <= p <= sizes[w]
    ensures |WindowNumbers(sizes)| == |Positions(sizes)| && HasRow(WindowNumbers(sizes), Positions(sizes), w, p)
  {
    RowsOrdered(sizes);
    var init, win, pos := sizes[..|sizes| - 1], WindowNumbers(sizes), Positions(sizes);
    RowsOrdered(init);
    if w == |init| {
      var j := |WindowNumbers(init)| + p - 1;
      assert win[j] == w && pos[j] == p;
    } else {
      RowsComplete(init, w, p);
      var j :| 0 <= j < |WindowNumbers(init)| && WindowNumbers(init)[j] == w && Positions(init)[j] == p;
      assert win[j] == w && pos[j] == p;
    }
  }

  ghost predicate Sliceable<T>(p: PairData<T>, wids: seq<string>) {
    forall k :: 0 <= k < |wids| ==> wids[k] in p.index && p.index[wids[k]].0 <= p.index[wids[k]].1 <= |p.rows|
  }

  /** The rows of the listed windows of one pair. */
  function SlicesOf<T>(p: PairData<T>, wids: seq<string>): (r: seq<seq<T>>)
    requires Sliceable(p, wids)
    ensures |r| == |wids|
    ensures forall k :: 0 <= k < |r| ==> r[k] == p.rows[p.index[wids[k]].0..p.index[wids[k]].1]
  {
    seq(|wids|, k requires 0 <= k < |wids| => p.rows[p.index[wids[k]].0..p.index[wids[k]].1])
  }

  /** The windows' sizes agree in pair `p` with pair zero. */
  predicate AgreesInSize<T>(pairs: seq<PairData<T>>, p: nat, wids: seq<string>)
    requires p < |pairs|
    requires forall k :: 0 <= k < |wids| ==> InEvery(pairs, wids[k])
  {
    forall k :: 0 <= k < |wids| ==>
      assert InEvery(pairs, wids[k]); SizeIn(pairs[p], wids[k]) == SizeIn(pairs[0], wids[k])
  }

  /** Row `j` of pair `p` is row `pos[j]` of window `wids[win[j]]`. */
  ghost predicate RowComesFrom<T>(v: View<T>, p: nat, j: nat, parts: seq<seq<T>>, wins: seq<string>)
    requires v.Aligned? && p < |v.arrays| && |parts| == |wins|
  {
    && j < |v.win| && j < |v.pos| && j < |v.arrays[p]|
    && v.win[j] < |v.wids| && v.wids[v.win[j]] in wins
    && 1 <= v.pos[j] <= |PartOf(parts, wins, v.wids[v.win[j]])|
    && v.arrays[p][j] == PartOf(parts, wins, v.wids[v.win[j]])[v.pos[j] - 1]
  }

  /** The slices of the listed windows are those windows' own parts. */
  lemma SlicesAreParts<T>(p: PairData<T>, parts: seq<seq<T>>, wins: seq<string>, wids: seq<string>)
    requires |parts| == |wins| && Tabulates(p, parts, wins)
    requires forall k :: 0 <= k < |wids| ==> wids[k] in p.index
    ensures Sliceable(p, wids)
    ensures forall k :: 0 <= k < |wids| ==> wids[k] in wins && SlicesOf(p, wids)[k] == PartOf(parts, wins, wids[k])
  {
    forall k | 0 <= k < |wids| ensures FindsWindow(p, parts, wins, wids[k]) {
      assert wids[k] in p.index;
    }
  }

  /** Every row of pair `p` comes from the window and position named for that row. */
  ghost predicate PairInLine<T>(v: View<T>, p: nat, parts: seq<seq<T>>, wins: seq<string>)
    requires v.Aligned? && p < |v.arrays| && |parts| == |wins|
  {
    |v.arrays[p]| == |v.win| && forall j :: 0 <= j < |v.win| ==> RowComesFrom(v, p, j, parts, wins)
  }

  /** The sizes of the listed windows in a pair. */
  ghost predicate SizesAre<T>(p: PairData<T>, wids: seq<string>, sizes: seq<nat>) {
    |sizes| == |wids| && forall k :: 0 <= k < |wids| ==> wids[k] in p.index && SizeIn(p, wids[k]) == sizes[k]
  }

  /** One pair's rows in a view come from their own window and position. */
  lemma PairLinesUp<T>(v: View<T>, p: nat, pair: PairData<T>, parts: seq<seq<T>>, wins: seq<string>, sizes: seq<nat>)
    requires v.Aligned? && p < |v.arrays| && |parts| == |wins| && Tabulates(pair, parts, wins)
    requires Sliceable(pair, v.wids) && SizesAre(pair, v.wids, sizes)
    requires v.win == WindowNumbers(sizes) && v.pos == Positions(sizes)
    requires v.arrays[p] == Concat(SlicesOf(pair, v.wids))
    ensures PairInLine(v, p, parts, wins)
  {
    SlicesAreParts(pair, parts, wins, v.wids);
    var slices := SlicesOf(pair, v.wids);
    assert Lengths(slices) == sizes;
    RowsLineUp(slices);
    forall j | 0 <= j < |v.win| ensures RowComesFrom(v, p, j, parts, wins) {
      assert EntryAt(slices, v.win[j], v.pos[j], v.arrays[p][j]);
    }
  }

  /** Window `w` has `n` rows in pair `p`. */
  ghost predicate HasLength<T>(parts: seq<seq<T>>, wins: seq<string>, w: string, n: nat)
    requires |parts| == |wins|
  {
    w in wins && |PartOf(parts, wins, w)| == n
  }

  /** The listed windows have these lengths in every pair. */
  ghost predicate LengthsAre<T>(parts: seq<seq<seq<T>>>, wins: seq<seq<string>>, wids: seq<string>, sizes: seq<nat>)
    requires |parts| == |wins| && forall p :: 0 <= p < |parts| ==> |parts[p]| == |wins[p]|
  {
    |sizes| == |wids|
    && forall p, k :: 0 <= p < |parts| && 0 <= k < |wids| ==> HasLength(parts[p], wins[p], wids[k], sizes[k])
  }

  /** The first pair's window sizes. */
  function SizesOf<T>(pair: PairData<T>, wids: seq<string>): (sizes: seq<nat>)
    requires Sliceable(pair, wids)
    ensures SizesAre(pair, wids, sizes)
  {
    seq(|wids|, k requires 0 <= k < |wids| => (pair.index[wids[k]].1 - pair.index[wids[k]].0) as nat)
  }

  ghost predicate TabulateAll<T>(pairs: seq<PairData<T>>, parts: seq<seq<seq<T>>>, wins: seq<seq<string>>) {
    && |pairs| == |parts| == |wins|
    && forall p :: 0 <= p < |pairs| ==> |parts[p]| == |wins[p]| && Tabulates(pairs[p], parts[p], wins[p])
  }

  lemma AllSliceable<T>(pairs: seq<PairData<T>>, parts: seq<seq<seq<T>>>, wins: seq<seq<string>>, wids: seq<string>)
    requires TabulateAll(pairs, parts, wins)
    requires forall k :: 0 <= k < |wids| ==> InEvery(pairs, wids[k])
    ensures forall p :: 0 <= p < |pairs| ==> Sliceable(pairs[p], wids)
  {
    forall p | 0 <= p < |pairs| ensures Sliceable(pairs[p], wids) {
      SlicesAreParts(pairs[p], parts[p], wins[p], wids);
    }
  }

  /** The pairs' rows of the listed windows, one array per pair. */
  method Gather<T>(pairs: seq<PairData<T>>, wids: seq<string>) returns (arrays: seq<seq<T>>)
    requires forall p :: 0 <= p < |pairs| ==> Sliceable(pairs[p], wids)
    ensures |arrays| == |pairs|
    ensures forall p :: 0 <= p < |pairs| ==> arrays[p] == Concat(SlicesOf(pairs[p], wids))
  {
    arrays := [];
    for p := 0 to |pairs|
      invariant |arrays| == p
      invariant forall q :: 0 <= q < p ==> arrays[q] == Concat(SlicesOf(pairs[q], wids))
    {
      arrays := arrays + [Concat(SlicesOf(pairs[p], wids))];
    }
  }

  lemma AllInLine<T>(v: View<T>, pairs: seq<PairData<T>>, parts: seq<seq<seq<T>>>, wins: seq<seq<string>>,
                     sizes: seq<nat>)
    requires TabulateAll(pairs, parts, wins) && v.Aligned? && |v.arrays| == |pairs|
    requires forall p :: 0 <= p < |pairs| ==>
               && Sliceable(pairs[p], v.wids) && SizesAre(pairs[p], v.wids, sizes)
               && v.arrays[p] == Concat(SlicesOf(pairs[p], v.wids))
    requires v.win == WindowNumbers(sizes) && v.pos == Positions(sizes)
    ensures forall p :: 0 <= p < |pairs| ==> PairInLine(v, p, parts[p], wins[p])
  {
    forall p | 0 <= p < |pairs| ensures PairInLine(v, p, parts[p], wins[p]) {
      PairLinesUp(v, p, pairs[p], parts[p], wins[p], sizes);
    }
  }

  /** The listed windows have the same lengths in every pair. */
  ghost predicate SameLengths<T>(parts: seq<seq<seq<T>>>, wins: seq<seq<string>>, wids: seq<string>)
    requires |parts| == |wins| && forall p :: 0 <= p < |parts| ==> |parts[p]| == |wins[p]|
  {
    exists sizes :: LengthsAre(parts, wins, wids, sizes)
  }

  /** A window's recorded size is its part's length. */
  lemma SizeIsLength<T>(pair: PairData<T>, parts: seq<seq<T>>, wins: seq<string>, w: string)
    requires |parts| == |wins| && Tabulates(pair, parts, wins) && w in pair.index
    ensures w in wins && SizeIn(pair, w) == |PartOf(parts, wins, w)|
  {
    assert FindsWindow(pair, parts, wins, w);
  }

  lemma SizesAreLengths<T>(pairs: seq<PairData<T>>, parts: seq<seq<seq<T>>>, wins: seq<seq<string>>, wids: seq<string>)
    requires TabulateAll(pairs, parts, wins) && forall k :: 0 <= k < |wids| ==> InEvery(pairs, wids[k])
    ensures forall p, k :: 0 <= p < |pairs| && 0 <= k < |wids| ==>
              wids[k] in wins[p] && wids[k] in pairs[p].index
              && SizeIn(pairs[p], wids[k]) == |PartOf(parts[p], wins[p], wids[k])|
  {
    forall p, k | 0 <= p < |pairs| && 0 <= k < |wids|
      ensures wids[k] in wins[p] && wids[k] in pairs[p].index
              && SizeIn(pairs[p], wids[k]) == |PartOf(parts[p], wins[p], wids[k])|
    {
      assert InEvery(pairs, wids[k]);
      SizeIsLength(pairs[p], parts[p], wins[p], wids[k]);
    }
  }

  /** Pairs that agree in their recorded sizes have the first pair's window lengths. */
  lemma AgreeingLengths<T>(pairs: seq<PairData<T>>, parts: seq<seq<seq<T>>>, wins: seq<seq<string>>, wids: seq<string>)
    requires |pairs| > 0 && TabulateAll(pairs, parts, wins)
    requires forall k :: 0 <= k < |wids| ==> InEvery(pairs, wids[k])
    requires (forall p :: 0 <= p < |pairs| ==> AgreesInSize(pairs, p, wids)) && Sliceable(pairs[0], wids)
    ensures LengthsAre(parts, wins, wids, SizesOf(pairs[0], wids)) && SameLengths(parts, wins, wids)
    ensures forall p :: 0 <= p < |pairs| ==> SizesAre(pairs[p], wids, SizesOf(pairs[0], wids))
  {
    SizesAreLengths(pairs, parts, wins, wids);
    hide PartOf, Tabulates, Sliceable, TabulateAll;
    var sizes := SizesOf(pairs[0], wids);
    forall p, k | 0 <= p < |pairs| && 0 <= k < |wids|
      ensures HasLength(parts[p], wins[p], wids[k], sizes[k]) && SizeIn(pairs[p], wids[k]) == sizes[k]
    {
      assert AgreesInSize(pairs, p, wids);
    }
  }

  /** A pair that does not agree leaves no common lengths. */
  lemma DisagreeingLengths<T>(pairs: seq<PairData<T>>, parts: seq<seq<seq<T>>>, wins: seq<seq<string>>,
                              wids: seq<string>, p: nat)
    requires TabulateAll(pairs, parts, wins) && forall k :: 0 <= k < |wids| ==> InEvery(pairs, wids[k])
    requires p < |pairs| && !AgreesInSize(pairs, p, wids)
    ensures !SameLengths(parts, wins, wids)
  {
    SizesAreLengths(pairs, parts, wins, wids);
    hide PartOf, Tabulates, TabulateAll;
    var k :| 0 <= k < |wids| && wids[k] in pairs[p].index && wids[k] in pairs[0].index
             && SizeIn(pairs[p], wids[k]) != SizeIn(pairs[0], wids[k]);
    forall sizes ensures !LengthsAre(parts, wins, wids, sizes) {
      if |sizes| == |wids| {
        assert !HasLength(parts[p], wins[p], wids[k], sizes[k]) || !HasLength(parts[0], wins[0], wids[k], sizes[k]);
      }
    }
  }

  /** The view has exactly the rows of the listed windows, window by window, with ascending positions. */
  ghost predicate RowsExactly<T>(v: View<T>, parts: seq<seq<seq<T>>>, wins: seq<seq<string>>)
    requires v.Aligned? && |parts| == |wins| && forall p :: 0 <= p < |parts| ==> |parts[p]| == |wins[p]|
  {
    && |v.win| == |v.pos| && Ordered(v.win, v.pos)
    && exists sizes ::
         && LengthsAre(parts, wins, v.wids, sizes) && |v.win| == SumOf(sizes)
         && (forall j :: 0 <= j < |v.win| ==> v.win[j] < |sizes| && 1 <= v.pos[j] <= sizes[v.win[j]])
         && forall w: nat, p: nat :: w < |sizes| && 1 <= p <= sizes[w] ==> HasRow(v.win, v.pos, w, p)
  }

  /** Lines up all pairs. The view exists exactly when the common windows have the same lengths in every pair. Then
      it has a row for every position of every common window, in that order, and no other; and entry `j` of every
      pair's array is that pair's own entry for row `j`. */
  method MakeView<T>(expected: seq<string>, pairs: seq<PairData<T>>, ghost parts: seq<seq<seq<T>>>,
                     ghost wins: seq<seq<string>>)
    returns (v: View<T>)
    requires |pairs| > 0 && TabulateAll(pairs, parts, wins)
    ensures v.Aligned? <==> SameLengths(parts, wins, Common(expected, pairs))
    ensures v.Aligned? ==>
              && v.wids == Common(expected, pairs) && |v.arrays| == |pairs|
              && (forall p :: 0 <= p < |pairs| ==> PairInLine(v, p, parts[p], wins[p]))
              && RowsExactly(v, parts, wins)
  {
    hide RowsExactly, LengthsAre, SameLengths, PairInLine, Tabulates, Sliceable, SizesAre, AgreesInSize;
    var wids := Common(expected, pairs);
    AllSliceable(pairs, parts, wins, wids);
    FirstAgrees(pairs, wids);
    for p := 1 to |pairs|
      invariant forall q :: 0 <= q < p ==> AgreesInSize(pairs, q, wids)
    {
      if !AgreesInSize(pairs, p, wids) {
        DisagreeingLengths(pairs, parts, wins, wids, p);
        return Disagree;
      }
    }
    AgreeingLengths(pairs, parts, wins, wids);
    var sizes := SizesOf(pairs[0], wids);
    var arrays := Gather(pairs, wids);
    v := Aligned(wids, WindowNumbers(sizes), Positions(sizes), arrays);
    AllInLine(v, pairs, parts, wins, sizes);
    ExactRows(v, parts, wins, sizes);
  }

  lemma FirstAgrees<T>(pairs: seq<PairData<T>>, wids: seq<string>)
    requires |pairs| > 0 && forall k :: 0 <= k < |wids| ==> InEvery(pairs, wids[k])
    ensures AgreesInSize(pairs, 0, wids)
  {
  }

  lemma ExactRows<T>(v: View<T>, parts: seq<seq<seq<T>>>, wins: seq<seq<string>>, sizes: seq<nat>)
    requires v.Aligned? && |parts| == |wins| && forall p :: 0 <= p < |parts| ==> |parts[p]| == |wins[p]|
    requires LengthsAre(parts, wins, v.wids, sizes) && v.win == WindowNumbers(sizes) && v.pos == Positions(sizes)
    ensures RowsExactly(v, parts, wins)
  {
    hide LengthsAre, Ordered, HasRow;
    RowsOrdered(sizes);
    forall w: nat, p: nat | w < |sizes| && 1 <= p <= sizes[w] ensures HasRow(v.win, v.pos, w, p) {
      RowsComplete(sizes, w, p);
    }
  }
}
