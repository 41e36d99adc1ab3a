/** Ragged decode packing (scripts/node/sparse_attn_indexer_kpool_sm121.py): requests of different lengths are
    laid out as the rows of a padded grid, worked on there, and read back. */
module Ragged {

  // ---------------------------------------------------------------- index arithmetic

  /** Offset of request `b`'s first token in the flat layout. */
  function Start(lens: seq<nat>, b: nat): nat
    requires b <= |lens|
  {
    if b == 0 then 0 else Start(lens, b - 1) + lens[b - 1]
  }

  function Total(lens: seq<nat>): nat { Start(lens, |lens|) }

  /** `x` repeated, as one element of `repeat_interleave`. */
  function Copies<T>(n: nat, x: T): (r: seq<T>)
    ensures |r| == n && forall i :: 0 <= i < n ==> r[i] == x
  {
    seq(n, _ => x)
  }

  /** `torch.repeat_interleave`. */
  function RepeatInterleave<T>(xs: seq<T>, lens: seq<nat>): seq<T>
    requires |xs| == |lens|
  {
    if |xs| == 0 then []
    else
      var k := |xs| - 1;
      RepeatInterleave(xs[..k], lens[..k]) + Copies(lens[k], xs[k])
  }

  /** `torch.cumsum`. */
  function CumSum(xs: seq<nat>): (r: seq<nat>)
    ensures |r| == |xs|
  {
    if |xs| == 0 then []
    else
      var sums := CumSum(xs[..|xs| - 1]);
      sums + [(if |sums| == 0 then 0 else sums[|sums| - 1]) + xs[|xs| - 1]]
  }

  function Arange(n: nat): (r: seq<nat>)
    ensures |r| == n && forall i :: 0 <= i < n ==> r[i] == i
  {
    seq(n, (i: nat) => i)
  }

  lemma {:induction false} StartOfPrefix(lens: seq<nat>, k: nat, b: nat)
    requires b <= k <= |lens|
    ensures Start(lens[..k], b) == Start(lens, b)
  {
    if b == 0 {
    } else {
      StartOfPrefix(lens, k, b - 1);
    }
  }

  lemma {:induction false} StartsAscend(lens: seq<nat>, a: nat, b: nat)
    requires a <= b <= |lens|
    ensures Start(lens, a) <= Start(lens, b)
    ensures a < b ==> Start(lens, a) + lens[a] <= Start(lens, b)
  {
    if a == b {
    } else {
      StartsAscend(lens, a, b - 1);
    }
  }

  /** The prefix sums of the shifted lengths are the requests' offsets. */
  lemma {:induction false} CumSumIsStart(lens: seq<nat>, k: nat, b: nat)
    requires b < k <= |lens|
    ensures CumSum([0] + lens[..k - 1])[b] == Start(lens, b)
  {
    var shifted := [0] + lens[..k - 1];
    if k == 1 {
    } else if b < k - 1 {
      assert shifted[..|shifted| - 1] == [0] + lens[..k - 2];
      CumSumIsStart(lens, k - 1, b);
    } else {
      assert shifted[..|shifted| - 1] == [0] + lens[..k - 2];
      CumSumIsStart(lens, k - 1, b - 1);
    }
  }

  lemma {:induction false} RepeatedAt<T>(xs: seq<T>, lens: seq<nat>)
    requires |xs| == |lens|
    ensures |RepeatInterleave(xs, lens)| == Total(lens)
    ensures forall b, j :: 0 <= b < |lens| && Start(lens, b) <= j < Start(lens, b + 1) && j < Total(lens) ==>
                             RepeatInterleave(xs, lens)[j] == xs[b]
  {
    if |xs| == 0 {
    } else {
      var k := |xs| - 1;
      RepeatedAt(xs[..k], lens[..k]);
      StartOfPrefix(lens, k, k);
      forall b, j | 0 <= b < |lens| && Start(lens, b) <= j < Start(lens, b + 1) && j < Total(lens)
        ensures RepeatInterleave(xs, lens)[j] == xs[b]
      {
        if b < k {
          StartOfPrefix(lens, k, b);
          StartOfPrefix(lens, k, b + 1);
          StartsAscend(lens, b + 1, k);
        }
      }
    }
  }

  /** The same for one element. */
  lemma RepeatedOne<T>(xs: seq<T>, lens: seq<nat>, b: nat, j: nat)
    requires |xs| == |lens| && b < |lens| && Start(lens, b) <= j < Start(lens, b + 1) && j < Total(lens)
    ensures |RepeatInterleave(xs, lens)| == Total(lens) && RepeatInterleave(xs, lens)[j] == xs[b]
  {
    hide RepeatInterleave, Start;
    RepeatedAt(xs, lens);
  }

  /** Per-token request id and index inside the request. */
  datatype Indices = Indices(reqId: seq<nat>, intra: seq<int>)

  /** `n` is the sum of the lengths, as the caller promises. */
  function BuildDecodeScatterIndices(lens: seq<nat>, n: nat): Indices
    requires |lens| > 0 && n == Total(lens)
  {
    var reqId := RepeatInterleave(Arange(|lens|), lens);
    var reqStarts := CumSum([0] + lens[..|lens| - 1]);
    var starts := RepeatInterleave(reqStarts, lens);
    assert |starts| == n by { RepeatedAt(reqStarts, lens); }
    Indices(reqId, seq(n, i requires 0 <= i < n => i - starts[i]))
  }

  /** `j` is token `t` of request `b`. */
  ghost predicate IsToken(lens: seq<nat>, b: nat, t: int, j: nat) {
    b < |lens| && 0 <= t < lens[b] && j == Start(lens, b) + t
  }

  /** The request a flat token belongs to. */
  function RequestOf(lens: seq<nat>, j: nat): (b: nat)
    requires j < Total(lens)
    ensures b < |lens| && Start(lens, b) <= j < Start(lens, b + 1)
  {
    var k := |lens| - 1;
    if j >= Start(lens, k) then k
    else
      StartOfPrefix(lens, k, k);
      var b := RequestOf(lens[..k], j);
      StartOfPrefix(lens, k, b);
      StartOfPrefix(lens, k, b + 1);
      b
  }

  /** Token `j` is the token that its indices name. */
  lemma IndicesName(lens: seq<nat>, j: nat)
    requires |lens| > 0 && j < Total(lens)
    ensures |BuildDecodeScatterIndices(lens, Total(lens)).reqId| == Total(lens)
    ensures |BuildDecodeScatterIndices(lens, Total(lens)).intra| == Total(lens)
    ensures
      var x := BuildDecodeScatterIndices(lens, Total(lens));
      IsToken(lens, x.reqId[j], x.intra[j], j)
  {
    var reqStarts := CumSum([0] + lens[..|lens| - 1]);
    var b := RequestOf(lens, j);
    NextStart(lens, b);
    hide RepeatInterleave, CumSum, Start;
    RepeatedOne(Arange(|lens|), lens, b, j);
    RepeatedOne(reqStarts, lens, b, j);
    assert lens[..|lens| - 1] == lens[..|lens| - 1];
    CumSumIsStart(lens, |lens|, b);
  }

  lemma NextStart(lens: seq<nat>, b: nat)
    requires b < |lens|
    ensures Start(lens, b + 1) == Start(lens, b) + lens[b]
  {
  }

  /** No cell is named twice and no token has two cells. */
  lemma TokensAreUnique(lens: seq<nat>, b: nat, t: int, j: nat, c: nat, u: int, k: nat)
    requires IsToken(lens, b, t, j) && IsToken(lens, c, u, k)
    ensures j < Total(lens)
    ensures j == k <==> b == c && t == u
  {
    StartsAscend(lens, b + 1, |lens|);
    if b < c {
      StartsAscend(lens, b + 1, c);
    } else if c < b {
      StartsAscend(lens, c + 1, b);
    }
  }

  /** The indices are a bijection from the flat tokens onto the occupied cells: every token names one occupied
      cell, every occupied cell is named by one token, and both ways around come back. */
  lemma IndicesAreBijection(lens: seq<nat>)
    requires |lens| > 0
    ensures
      var x := BuildDecodeScatterIndices(lens, Total(lens));
      && |x.reqId| == |x.intra| == Total(lens)
      && (forall j :: 0 <= j < Total(lens) ==> IsToken(lens, x.reqId[j], x.intra[j], j))
      && (forall b: nat, t: int, j: nat :: IsToken(lens, b, t, j) ==>
          j < Total(lens) && x.reqId[j] == b && x.intra[j] == t)
  {
    var x := BuildDecodeScatterIndices(lens, Total(lens));
    RepeatedAt(Arange(|lens|), lens);
    forall j | 0 <= j < Total(lens) ensures IsToken(lens, x.reqId[j], x.intra[j], j) {
      IndicesName(lens, j);
    }
    forall b: nat, t: int, j: nat | IsToken(lens, b, t, j)
      ensures j < Total(lens) && x.reqId[j] == b && x.intra[j] == t
    {
      TokensAreUnique(lens, b, t, j, b, t, j);
      IndicesName(lens, j);
      TokensAreUnique(lens, b, t, j, x.reqId[j], x.intra[j], j);
    }
  }

  // ---------------------------------------------------------------- scatter

  ghost predicate Fits(lens: seq<nat>, width: nat) {
    forall b :: 0 <= b < |lens| ==> lens[b] <= width
  }

  lemma CellInRange(lens: seq<nat>, b: nat, t: nat)
    requires b < |lens| && t < lens[b]
    ensures Start(lens, b) + t < Total(lens)
  {
    StartsAscend(lens, b + 1, |lens|);
  }

  /** What the grid holds at row `b`, column `t`. */
  function Packed<T>(tokens: seq<T>, lens: seq<nat>, pad: T, b: nat, t: nat): T
    requires b < |lens| && |tokens| == Total(lens)
  {
    if t < lens[b] then
      CellInRange(lens, b, t);
      tokens[Start(lens, b) + t]
    else pad
  }

  /** Writes every token to the cell its indices name, over a buffer full of `pad`. */
  method ScatterDecodeTokensByRequest<T>(tokens: seq<T>, pad: T, requests: nat, width: nat, indices: Indices,
                                         ghost lens: seq<nat>)
    returns (out: array2<T>)
    requires 0 < |lens| == requests && |tokens| == Total(lens) && Fits(lens, width)
    requires indices == BuildDecodeScatterIndices(lens, |tokens|)
    ensures fresh(out) && out.Length0 == requests && out.Length1 == width
    ensures forall b, t :: 0 <= b < requests && 0 <= t < width ==> out[b, t] == Packed(tokens, lens, pad, b, t)
  {
    out := new T[requests, width]((b, t) => pad);
    IndicesAreBijection(lens);
    for j := 0 to |tokens|
      invariant forall b, t :: 0 <= b < requests && 0 <= t < width ==>
                  out[b, t] == if t < lens[b] && Start(lens, b) + t < j
                               then Packed(tokens, lens, pad, b, t) else pad
    {
      var row, column := indices.reqId[j], indices.intra[j];
      assert IsToken(lens, row, column, j);
      out[row, column] := tokens[j];
      forall b, t | 0 <= b < requests && 0 <= t < width
        ensures out[b, t] == if t < lens[b] && Start(lens, b) + t < j + 1
                             then Packed(tokens, lens, pad, b, t) else pad
      {
        if t < lens[b] {
          TokensAreUnique(lens, row, column, j, b, t, Start(lens, b) + t);
        }
      }
    }
    forall b, t | 0 <= b < requests && 0 <= t < width
      ensures out[b, t] == Packed(tokens, lens, pad, b, t)
    {
      if t < lens[b] {
        CellInRange(lens, b, t);
      }
    }
  }

  // ---------------------------------------------------------------- unpack

  /** The grid's rows. */
  function RowsOf<T>(tokens: seq<T>, lens: seq<nat>, pad: T, width: nat): (rows: seq<seq<T>>)
    requires |tokens| == Total(lens)
    ensures |rows| == |lens|
    ensures forall b :: 0 <= b < |rows| ==> |rows[b]| == width
    ensures forall b, t :: 0 <= b < |rows| && 0 <= t < width ==> rows[b][t] == Packed(tokens, lens, pad, b, t)
  {
    seq(|lens|, b requires 0 <= b < |lens| => seq(width, t requires 0 <= t < width => Packed(tokens, lens, pad, b, t)))
  }

  /** Reads each row's first `lens[b]` entries, in order. */
  function Unpack<T>(rows: seq<seq<T>>, lens: seq<nat>): seq<T>
    requires |rows| == |lens|
    requires forall b :: 0 <= b < |rows| ==> lens[b] <= |rows[b]|
  {
    if |rows| == 0 then []
    else
      var k := |rows| - 1;
      Unpack(rows[..k], lens[..k]) + rows[k][..lens[k]]
  }

  /** The flat results read back are, token by token, the entries of that token's own cell. */
  lemma {:induction false} UnpackAt<T>(rows: seq<seq<T>>, lens: seq<nat>)
    requires |rows| == |lens|
    requires forall b :: 0 <= b < |rows| ==> lens[b] <= |rows[b]|
    ensures |Unpack(rows, lens)| == Total(lens)
    ensures forall b: nat, t: int, j: nat :: IsToken(lens, b, t, j) && j < Total(lens) ==>
            Unpack(rows, lens)[j] == rows[b][t]
  {
    if |rows| == 0 {
    } else {
      var k := |rows| - 1;
      UnpackAt(rows[..k], lens[..k]);
      StartOfPrefix(lens, k, k);
      forall b: nat, t: int, j: nat | IsToken(lens, b, t, j) && j < Total(lens)
          ensures Unpack(rows, lens)[j] == rows[b][t] {
        UnpackSnoc(rows, lens, j);
        hide Unpack;
        if b < k {
          StartOfPrefix(lens, k, b);
          StartsAscend(lens, b + 1, k);
          assert IsToken(lens[..k], b, t, j);
        }
      }
    }
  }

  lemma UnpackSnoc<T>(rows: seq<seq<T>>, lens: seq<nat>, j: nat)
    requires |rows| == |lens| > 0 && forall b :: 0 <= b < |rows| ==> lens[b] <= |rows[b]|
    requires j < Total(lens) && |Unpack(rows[..|rows| - 1], lens[..|rows| - 1])| == Start(lens, |rows| - 1)
    ensures |Unpack(rows, lens)| == Total(lens)
    ensures
      var k := |rows| - 1;
      var n := Start(lens, k);
      Unpack(rows, lens)[j] == if j < n then Unpack(rows[..k], lens[..k])[j] else rows[k][j - n]
  {
  }

  /** The same for one token. */
  lemma UnpackOne<T>(rows: seq<seq<T>>, lens: seq<nat>, b: nat, t: int, j: nat)
    requires |rows| == |lens| && forall b :: 0 <= b < |rows| ==> lens[b] <= |rows[b]|
    requires IsToken(lens, b, t, j) && j < Total(lens)
    ensures |Unpack(rows, lens)| == Total(lens) && Unpack(rows, lens)[j] == rows[b][t]
  {
    hide Unpack, Start;
    UnpackAt(rows, lens);
  }

  lemma TokenAt(lens: seq<nat>, j: nat) returns (b: nat, t: nat)
    requires j < Total(lens)
    ensures IsToken(lens, b, t, j)
  {
    b := RequestOf(lens, j);
    t := j - Start(lens, b);
    NextStart(lens, b);
  }

  function Map<S, T>(f: S -> T, xs: seq<S>): (r: seq<T>)
    ensures |r| == |xs| && forall i :: 0 <= i < |xs| ==> r[i] == f(xs[i])
  {
    seq(|xs|, i requires 0 <= i < |xs| => f(xs[i]))
  }

  function MapRows<S, T>(f: S -> T, rows: seq<seq<S>>): (r: seq<seq<T>>)
    ensures |r| == |rows| && forall i :: 0 <= i < |rows| ==> r[i] == Map(f, rows[i])
  {
    seq(|rows|, i requires 0 <= i < |rows| => Map(f, rows[i]))
  }

  /** Working row by row in the padded grid and dropping the padding is working on the flat tokens: what is
      computed from pad cells is never read back. */
  lemma PaddingIsInvisible<S, T>(f: S -> T, tokens: seq<S>, lens: seq<nat>, pad: S, width: nat)
    requires |tokens| == Total(lens) && Fits(lens, width)
    ensures Unpack(MapRows(f, RowsOf(tokens, lens, pad, width)), lens) == Map(f, tokens)
  {
    var rows := MapRows(f, RowsOf(tokens, lens, pad, width));
    UnpackAt(rows, lens);
    hide Start, Unpack;
    forall j | 0 <= j < Total(lens) ensures Unpack(rows, lens)[j] == f(tokens[j]) {
      var b, t := TokenAt(lens, j);
      UnpackOne(rows, lens, b, t, j);
    }
  }

  /** Packing and reading back restores the tokens. */
  lemma PackRoundTrip<T>(tokens: seq<T>, lens: seq<nat>, pad: T, width: nat)
    requires |tokens| == Total(lens) && Fits(lens, width)
    ensures Unpack(RowsOf(tokens, lens, pad, width), lens) == tokens
  {
    UnpackAt(RowsOf(tokens, lens, pad, width), lens);
    var back := Unpack(RowsOf(tokens, lens, pad, width), lens);
    forall j | 0 <= j < Total(lens) ensures back[j] == tokens[j] {
      var b := RequestOf(lens, j);
      assert IsToken(lens, b, j - Start(lens, b), j);
    }
  }

  // ---------------------------------------------------------------- grouping for the cache write

  /** Index of row `b`'s first cell: `b * width`, written as a sum. */
  function RowStart(width: nat, b: nat): nat {
    if b == 0 then 0 else RowStart(width, b - 1) + width
  }

  lemma {:induction false} RowStartIsProduct(width: nat, b: nat)
    ensures RowStart(width, b) == b * width
  {
    if b == 0 {
    } else {
      RowStartIsProduct(width, b - 1);
    }
  }

  lemma {:induction false} RowStartAscends(width: nat, a: nat, b: nat)
    requires a < b
    ensures RowStart(width, a) + width == RowStart(width, a + 1) <= RowStart(width, b)
  {
    if a + 1 == b {
    } else {
      RowStartAscends(width, a, b - 1);
    }
  }

  lemma {:induction false} WiderRows(x: nat, y: nat, n: nat)
    requires x < y && n > 0
    ensures RowStart(x, n) < RowStart(y, n)
  {
    if n == 1 {
    } else {
      WiderRows(x, y, n - 1);
    }
  }

  function RowSlice<T>(tokens: seq<T>, requests: nat, width: nat, b: nat): (row: seq<T>)
    requires |tokens| == RowStart(width, requests) && b < requests
    ensures RowStart(width, b) + width <= |tokens| && row == tokens[RowStart(width, b)..RowStart(width, b) + width]
  {
    RowStartAscends(width, b, requests);
    tokens[RowStart(width, b)..RowStart(width, b) + width]
  }

  /** `view(requests, width)` of a flat tensor. */
  function View<T>(tokens: seq<T>, requests: nat, width: nat): (rows: seq<seq<T>>)
    requires |tokens| == RowStart(width, requests)
    ensures |rows| == requests
    ensures forall b :: 0 <= b < requests ==> rows[b] == RowSlice(tokens, requests, width, b)
  {
    seq(requests, b requires 0 <= b < requests => RowSlice(tokens, requests, width, b))
  }

  /** Equal lengths put request `b` at row start `b`. */
  lemma {:induction false} UniformStart(lens: seq<nat>, width: nat, b: nat)
    requires b <= |lens| && forall c :: 0 <= c < |lens| ==> lens[c] == width
    ensures Start(lens, b) == RowStart(width, b)
  {
    if b == 0 {
    } else {
      UniformStart(lens, width, b - 1);
    }
  }

  /** The grid as rows. */
  function GridRows<T>(grid: array2<T>): (rows: seq<seq<T>>)
    reads grid
    ensures |rows| == grid.Length0
    ensures forall b :: 0 <= b < |rows| ==> |rows[b]| == grid.Length1
    ensures forall b, t :: 0 <= b < |rows| && 0 <= t < grid.Length1 ==> rows[b][t] == grid[b, t]
  {
    seq(grid.Length0, b requires 0 <= b < grid.Length0 reads grid =>
      seq(grid.Length1, t requires 0 <= t < grid.Length1 reads grid => grid[b, t]))
  }

  /** Rows with the packed contents are the packed rows. */
  lemma RowsArePacked<T>(rows: seq<seq<T>>, tokens: seq<T>, lens: seq<nat>, pad: T, width: nat)
    requires |tokens| == Total(lens) && |rows| == |lens|
    requires forall b :: 0 <= b < |rows| ==> |rows[b]| == width
    requires forall b, t :: 0 <= b < |rows| && 0 <= t < width ==> rows[b][t] == Packed(tokens, lens, pad, b, t)
    ensures rows == RowsOf(tokens, lens, pad, width)
  {
    forall b | 0 <= b < |rows| ensures rows[b] == RowsOf(tokens, lens, pad, width)[b] {
      assert forall t :: 0 <= t < width ==> rows[b][t] == RowsOf(tokens, lens, pad, width)[b][t];
    }
  }

  /** The decode write's choice between reshaping and scattering. `uniform` is the host's flag: it is only set
      when all lengths are equal. Either way row `b` holds request `b`'s tokens in order, then padding. */
  method GroupForWrite<T>(tokens: seq<T>, pad: T, lens: seq<nat>, uniform: bool, width: nat)
    returns (rows: seq<seq<T>>)
    requires |lens| > 0 && |tokens| == Total(lens) && Fits(lens, width)
    requires uniform ==> forall b, c :: 0 <= b < c < |lens| ==> lens[b] == lens[c]
    ensures rows == RowsOf(tokens, lens, pad, width)
  {
    var requests := |lens|;
    RowStartIsProduct(width, requests);
    if uniform && |tokens| == requests * width {
      SharedLength(lens, width);
      var nextN := |tokens| / requests;
      assert nextN == width by { DivideExactly(requests, width); }
      rows := View(tokens, requests, nextN);
      ViewIsPacked(tokens, lens, pad, width);
    } else {
      var indices := BuildDecodeScatterIndices(lens, |tokens|);
      var grid := ScatterDecodeTokensByRequest(tokens, pad, requests, width, indices, lens);
      rows := GridRows(grid);
      RowsArePacked(rows, tokens, lens, pad, width);
    }
  }

  lemma DivideExactly(n: nat, x: nat)
    requires n > 0
    ensures n * x / n == x
  {
    var q := n * x / n;
    assert n * x == n * q + n * x % n;
    assert n * (x - q) == n * x - n * q;
    AwayFromZero(n, x - q);
  }

  lemma AwayFromZero(n: int, z: int)
    requires n > 0
    ensures z >= 1 ==> n * z >= n
    ensures z <= -1 ==> n * z <= -n
  {
    assert n * (z - 1) == n * z - n && n * (z + 1) == n * z + n;
  }

  lemma SharedLength(lens: seq<nat>, width: nat)
    requires |lens| > 0 && Total(lens) == RowStart(width, |lens|)
    requires forall b, c :: 0 <= b < c < |lens| ==> lens[b] == lens[c]
    ensures forall b :: 0 <= b < |lens| ==> lens[b] == width
  {
    UniformStart(lens, lens[0], |lens|);
    if lens[0] < width {
      WiderRows(lens[0], width, |lens|);
    } else if lens[0] > width {
      WiderRows(width, lens[0], |lens|);
    }
  }

  lemma ViewIsPacked<T>(tokens: seq<T>, lens: seq<nat>, pad: T, width: nat)
    requires |tokens| == Total(lens) == RowStart(width, |lens|)
    requires forall b :: 0 <= b < |lens| ==> lens[b] == width
    ensures View(tokens, |lens|, width) == RowsOf(tokens, lens, pad, width)
  {
    var rows := View(tokens, |lens|, width);
    forall b, t | 0 <= b < |lens| && 0 <= t < width ensures rows[b][t] == Packed(tokens, lens, pad, b, t) {
      UniformStart(lens, width, b);
    }
    RowsArePacked(rows, tokens, lens, pad, width);
  }

  // ---------------------------------------------------------------- sequence lengths of the padded rows

  /** `.to(torch.int32)`. */
  function Wrap32(x: int): (y: int)
    ensures -0x8000_0000 <= y < 0x8000_0000
    ensures -0x8000_0000 <= x < 0x8000_0000 ==> y == x
  {
    (x + 0x8000_0000) % 0x1_0000_0000 - 0x8000_0000
  }

  /** Token-granular length of one row, in 32-bit arithmetic. */
  function SeqLen(position: int): int { Wrap32(Wrap32(position) + 1) }

  /** `reshape(-1)`. */
  function Flatten<T>(rows: seq<seq<T>>): seq<T> {
    if |rows| == 0 then [] else Flatten(rows[..|rows| - 1]) + rows[|rows| - 1]
  }

  ghost predicate FlatCell<T>(flat: seq<T>, rows: seq<seq<T>>, width: nat, b: nat, t: nat)
    requires b < |rows| && t < |rows[b]|
  {
    RowStart(width, b) + t < |flat| && flat[RowStart(width, b) + t] == rows[b][t]
  }

  lemma {:induction false} FlattenAt<T>(rows: seq<seq<T>>, width: nat)
    requires forall b :: 0 <= b < |rows| ==> |rows[b]| == width
    ensures |Flatten(rows)| == RowStart(width, |rows|)
    ensures forall b, t :: 0 <= b < |rows| && 0 <= t < width ==> FlatCell(Flatten(rows), rows, width, b, t)
  {
    if |rows| == 0 {
    } else {
      var init := rows[..|rows| - 1];
      FlattenAt(init, width);
      forall b, t | 0 <= b < |rows| && 0 <= t < width ensures FlatCell(Flatten(rows), rows, width, b, t) {
        if b < |init| {
          assert FlatCell(Flatten(init), init, width, b, t);
        }
      }
    }
  }

  /** The padded branch: row `(b, t)` gets the length of the token in that cell, pad rows get zero. */
  ghost predicate FollowsGrid(result: seq<int>, positions: seq<int>, lens: seq<nat>, width: nat)
    requires Total(lens) <= |positions|
  {
    && |result| == RowStart(width, |lens|)
    && forall b, t :: 0 <= b < |lens| && 0 <= t < width ==> CellLength(result, positions, lens, width, b, t)
  }

  ghost predicate CellLength(result: seq<int>, positions: seq<int>, lens: seq<nat>, width: nat, b: nat, t: nat)
    requires Total(lens) <= |positions| && b < |lens|
  {
    && RowStart(width, b) + t < |result|
    && (t < lens[b] ==> Start(lens, b) + t < Total(lens)
                        && result[RowStart(width, b) + t] == SeqLen(positions[Start(lens, b) + t]))
    && (t >= lens[b] ==> result[RowStart(width, b) + t] == 0)
  }

  /** The uniform branch: the first `n` flat positions, or all of them when there are fewer. */
  function UniformSeqLens(positions: seq<int>, n: nat): seq<int> {
    Map(SeqLen, if n <= |positions| then positions[..n] else positions)
  }

  method DecodeTopkSeqLens(positions: seq<int>, lens: seq<nat>, tokens: nat, width: nat, requiresPadding: bool)
    returns (result: seq<int>)
    requires |lens| > 0 && tokens == Total(lens) <= |positions|
    requires requiresPadding ==> Fits(lens, width)
    ensures !requiresPadding ==> result == UniformSeqLens(positions, RowStart(width, |lens|))
    ensures requiresPadding ==> FollowsGrid(result, positions, lens, width)
  {
    var n := |lens| * width;
    RowStartIsProduct(width, |lens|);
    if !requiresPadding {
      return UniformSeqLens(positions, n);
    }
    var indices := BuildDecodeScatterIndices(lens, tokens);
    var flat := Map(Wrap32, positions[..tokens]);
    var grid := ScatterDecodeTokensByRequest(flat, -1, |lens|, width, indices, lens);
    var rows := GridRows(grid);
    RowsArePacked(rows, flat, lens, -1, width);
    result := Map((x: int) => Wrap32(x + 1), Flatten(rows));
    RowsFollowGrid(result, rows, positions, lens, width);
  }

  lemma RowsFollowGrid(result: seq<int>, rows: seq<seq<int>>, positions: seq<int>, lens: seq<nat>, width: nat)
    requires Total(lens) <= |positions| && Fits(lens, width)
    requires |Map(Wrap32, positions[..Total(lens)])| == Total(lens)
    requires rows == RowsOf(Map(Wrap32, positions[..Total(lens)]), lens, -1, width)
    requires |result| == |Flatten(rows)| && forall i :: 0 <= i < |result| ==> result[i] == Wrap32(Flatten(rows)[i] + 1)
    ensures FollowsGrid(result, positions, lens, width)
  {
    FlattenAt(rows, width);
    forall b, t | 0 <= b < |lens| && 0 <= t < width ensures CellLength(result, positions, lens, width, b, t) {
      if t < lens[b] {
        CellInRange(lens, b, t);
      }
      assert FlatCell(Flatten(rows), rows, width, b, t);
      assert rows[b][t] == Packed(Map(Wrap32, positions[..Total(lens)]), lens, -1, b, t);
    }
  }

  /** Positions of live tokens: non-negative, and one below the 32-bit limit. */
  ghost predicate Live(positions: seq<int>) {
    forall i :: 0 <= i < |positions| ==> 0 <= positions[i] < 0x7fff_ffff
  }

  /** The padded result is the uniform shortcut's result exactly when every length is `width`. */
  lemma PaddedEqualsUniform(result: seq<int>, positions: seq<int>, lens: seq<nat>, width: nat)
    requires Total(lens) <= |positions| && Live(positions) && Fits(lens, width)
    requires FollowsGrid(result, positions, lens, width)
    ensures result == UniformSeqLens(positions, RowStart(width, |lens|))
            <==> forall b :: 0 <= b < |lens| ==> lens[b] == width
  {
    hide FollowsGrid, Fits;
    if b :| 0 <= b < |lens| && lens[b] != width {
      ShortRowDiffers(result, positions, lens, width, b);
    } else {
      EqualRowsAgree(result, positions, lens, width);
    }
  }

  /** A short row has a padded cell of length zero, and the flat slice has none. */
  lemma ShortRowDiffers(result: seq<int>, positions: seq<int>, lens: seq<nat>, width: nat, b: nat)
    requires Total(lens) <= |positions| && Live(positions) && Fits(lens, width)
    requires FollowsGrid(result, positions, lens, width) && b < |lens| && lens[b] != width
    ensures result != UniformSeqLens(positions, RowStart(width, |lens|))
  {
    var uniform := UniformSeqLens(positions, RowStart(width, |lens|));
    assert CellLength(result, positions, lens, width, b, lens[b]);
    assert forall i :: 0 <= i < |uniform| ==> uniform[i] == positions[i] + 1 > 0;
    assert result[RowStart(width, b) + lens[b]] == 0;
  }

  lemma EqualRowsAgree(result: seq<int>, positions: seq<int>, lens: seq<nat>, width: nat)
    requires Total(lens) <= |positions| && Live(positions) && Fits(lens, width)
    requires FollowsGrid(result, positions, lens, width) && forall b :: 0 <= b < |lens| ==> lens[b] == width
    ensures result == UniformSeqLens(positions, RowStart(width, |lens|))
  {
    var n := RowStart(width, |lens|);
    UniformStart(lens, width, |lens|);
    forall i | 0 <= i < n ensures result[i] == UniformSeqLens(positions, n)[i] {
      var b, t := CellOf(|lens|, width, i);
      UniformStart(lens, width, b);
      assert CellLength(result, positions, lens, width, b, t);
      hide Start, RowStart;
    }
  }

  /** Row-major index back to its cell. */
  lemma {:induction false} CellOf(requests: nat, width: nat, i: nat) returns (b: nat, t: nat)
    requires i < RowStart(width, requests)
    ensures b < requests && t < width && i == RowStart(width, b) + t
  {
    if i >= RowStart(width, requests - 1) {
      b, t := requests - 1, i - RowStart(width, requests - 1);
    } else {
      b, t := CellOf(requests - 1, width, i);
    }
  }

  /** The entry of a live token's cell. */
  lemma TokenLength(result: seq<int>, positions: seq<int>, lens: seq<nat>, width: nat, b: nat, t: nat)
    requires Total(lens) <= |positions| && Live(positions) && Fits(lens, width)
    requires FollowsGrid(result, positions, lens, width)
    requires b < |lens| && t < lens[b]
    ensures t < |View(result, |lens|, width)[b]|
    ensures Start(lens, b) + t < Total(lens)
    ensures View(result, |lens|, width)[b][t] == positions[Start(lens, b) + t] + 1
  {
    assert CellLength(result, positions, lens, width, b, t);
    assert View(result, |lens|, width)[b] == RowSlice(result, |lens|, width, b);
  }

  /** What the padding is for: after the padded rows are dropped, every flat token has its own position plus one. */
  lemma LengthsReachTheirTokens(result: seq<int>, positions: seq<int>, lens: seq<nat>, width: nat)
    requires Total(lens) <= |positions| && Live(positions) && Fits(lens, width)
    requires FollowsGrid(result, positions, lens, width)
    ensures
      var rows := View(result, |lens|, width);
      && (forall b :: 0 <= b < |lens| ==> lens[b] <= |rows[b]|)
      && Unpack(rows, lens) == Map((p: int) => p + 1, positions[..Total(lens)])
  {
    var rows := View(result, |lens|, width);
    UnpackAt(rows, lens);
    hide CellLength, SeqLen, FollowsGrid, Start, Unpack, RowSlice, RowStart, View, IsToken, Live, Fits;
    forall j | 0 <= j < Total(lens) ensures Unpack(rows, lens)[j] == positions[j] + 1 {
      var b, t := TokenAt(lens, j);
      UnpackOne(rows, lens, b, t, j);
      TokenLength(result, positions, lens, width, b, t);
    }
  }

  /** The shortcut reads request `b`'s rows from `b * width`, which is its own first token exactly when no
      earlier request is short; otherwise it reads further on, at other tokens. */
  lemma {:induction false} ShortcutMisaligns(lens: seq<nat>, width: nat, b: nat)
    requires b <= |lens| && Fits(lens, width)
    ensures Start(lens, b) <= RowStart(width, b)
    ensures Start(lens, b) == RowStart(width, b) <==> forall c :: 0 <= c < b ==> lens[c] == width
  {
    if b == 0 {
    } else {
      ShortcutMisaligns(lens, width, b - 1);
    }
  }
}
