/** Product-limit survival of the identical prefix (scripts/fidelity/plots.py, `fig_decode`): the loop over the
    distinct divergence times, and what the drawn step function says about the prompts. */
module Survival {

  /** One prompt pair: the divergence position, or the length when the two never diverge. */
  datatype Prompt = Prompt(time: nat, diverged: bool)

  // ---------------------------------------------------------------- counts

  function Tally(b: bool): nat { if b then 1 else 0 }

  /** Prompts still identical just before position `g`. */
  function AtRisk(ps: seq<Prompt>, g: nat): nat {
    if |ps| == 0 then 0 else AtRisk(ps[1..], g) + Tally(ps[0].time >= g)
  }

  /** Prompts that diverge exactly at `g`. */
  function Diverging(ps: seq<Prompt>, g: nat): nat {
    if |ps| == 0 then 0 else Diverging(ps[1..], g) + Tally(ps[0].time == g && ps[0].diverged)
  }

  /** Prompts known to be identical beyond `g`. */
  function Beyond(ps: seq<Prompt>, g: nat): nat {
    if |ps| == 0 then 0 else Beyond(ps[1..], g) + Tally(ps[0].time > g)
  }

  /** Prompts known to have diverged at or before `g`. */
  function DivergedBy(ps: seq<Prompt>, g: nat): nat {
    if |ps| == 0 then 0 else DivergedBy(ps[1..], g) + Tally(ps[0].time <= g && ps[0].diverged)
  }

  ghost predicate CensoredBy(ps: seq<Prompt>, g: nat) {
    exists p :: p in ps && p.time <= g && !p.diverged
  }

  /** No prompt diverges strictly between `lo` and `hi`. */
  ghost predicate QuietBetween(ps: seq<Prompt>, lo: int, hi: int) {
    forall p :: p in ps && p.diverged ==> !(lo < p.time < hi)
  }

  lemma {:induction false} CountBounds(ps: seq<Prompt>, g: nat)
    ensures Beyond(ps, g) + Diverging(ps, g) <= AtRisk(ps, g) <= |ps|
    ensures !CensoredBy(ps, g) ==> Beyond(ps, g) + Diverging(ps, g) == AtRisk(ps, g)
    ensures !CensoredBy(ps, g) ==> Beyond(ps, g) == |ps| - DivergedBy(ps, g)
    ensures (exists p :: p in ps && p.time >= g) ==> AtRisk(ps, g) > 0
  {
    if |ps| == 0 {
    } else {
      CountBounds(ps[1..], g);
      if !CensoredBy(ps, g) {
        assert forall p :: p in ps[1..] ==> p in ps;
        assert ps[0] in ps;
      }
      assert ps == [ps[0]] + ps[1..];
    }
  }

  /** From one grid point to a later one without divergence between them. */
  lemma {:induction false} CountsMove(ps: seq<Prompt>, lo: nat, hi: nat)
    requires lo < hi && QuietBetween(ps, lo, hi)
    ensures AtRisk(ps, hi) <= Beyond(ps, lo)
    ensures DivergedBy(ps, hi) == DivergedBy(ps, lo) + Diverging(ps, hi)
    ensures !CensoredBy(ps, hi) ==> AtRisk(ps, hi) == Beyond(ps, lo)
  {
    if |ps| == 0 {
    } else {
      assert forall p :: p in ps[1..] ==> p in ps;
      assert ps[0] in ps;
      CountsMove(ps[1..], lo, hi);
    }
  }

  lemma {:induction false} CountsAtZero(ps: seq<Prompt>)
    ensures AtRisk(ps, 0) == |ps| && DivergedBy(ps, 0) == Diverging(ps, 0)
  {
    if |ps| == 0 {
    } else {
      CountsAtZero(ps[1..]);
    }
  }

  /** Between two grid points only `Beyond` can fall. */
  lemma {:induction false} CountsStay(ps: seq<Prompt>, lo: nat, g: nat)
    requires lo <= g && QuietBetween(ps, lo, g + 1)
    ensures Beyond(ps, g) <= Beyond(ps, lo) && DivergedBy(ps, g) == DivergedBy(ps, lo)
  {
    if |ps| == 0 {
    } else {
      assert forall p :: p in ps[1..] ==> p in ps;
      assert ps[0] in ps;
      CountsStay(ps[1..], lo, g);
    }
  }

  // ---------------------------------------------------------------- the grid

  ghost predicate Increasing(s: seq<nat>) {
    forall i, j :: 0 <= i < j < |s| ==> s[i] < s[j]
  }

  /** `numpy.unique`, one value at a time. */
  function Include(s: seq<nat>, x: nat): (r: seq<nat>)
    requires Increasing(s)
    ensures Increasing(r) && forall y :: y in r <==> y in s || y == x
  {
    if |s| == 0 then [x]
    else if s[|s| - 1] == x then s
    else if s[|s| - 1] < x then s + [x]
    else
      var last := s[|s| - 1];
      var init := Include(s[..|s| - 1], x);
      assert s == s[..|s| - 1] + [last];
      assert forall i :: 0 <= i < |init| ==> init[i] in init && init[i] < last;
      init + [last]
  }

  /** Zero and the distinct divergence times, ascending. */
  function Grid(ps: seq<Prompt>): (r: seq<nat>)
    ensures Increasing(r) && |r| > 0 && r[0] == 0
    ensures forall g :: g in r <==> g == 0 || (exists p :: p in ps && p.diverged && p.time == g)
  {
    if |ps| == 0 then [0]
    else
      assert ps == [ps[0]] + ps[1..];
      var rest := Grid(ps[1..]);
      if ps[0].diverged then
        var r := Include(rest, ps[0].time);
        assert 0 in r;
        r
      else rest
  }

  /** Nothing diverges after a grid point and before the next one. */
  lemma GridIsQuietAfter(ps: seq<Prompt>, j: nat, g: nat)
    requires j < |Grid(ps)| && Grid(ps)[j] <= g && (j + 1 < |Grid(ps)| ==> g < Grid(ps)[j + 1])
    ensures QuietBetween(ps, Grid(ps)[j], g + 1)
  {
    forall p | p in ps && p.diverged ensures exists k :: 0 <= k < |Grid(ps)| && Grid(ps)[k] == p.time {
      assert p.time in Grid(ps);
    }
  }

  /** Nothing diverges between neighbouring grid points. */
  lemma GridIsQuiet(ps: seq<Prompt>, j: nat)
    requires j < |Grid(ps)|
    ensures j > 0 ==> QuietBetween(ps, Grid(ps)[j - 1], Grid(ps)[j])
  {
    forall p | p in ps && p.diverged ensures exists k :: 0 <= k < |Grid(ps)| && Grid(ps)[k] == p.time {
      assert p.time in Grid(ps);
    }
  }

  // ---------------------------------------------------------------- the estimator

  /** The survivors' share after `d` of `n` prompts at risk diverge. */
  function Survivors(s: real, d: nat, n: nat): real {
    if n > 0 then s * (1.0 - d as real / n as real) else s
  }

  /** The product-limit estimate at grid point `j`. */
  function ProductLimit(ps: seq<Prompt>, grid: seq<nat>, j: nat): real
    requires j < |grid|
  {
    Survivors(if j == 0 then 1.0 else ProductLimit(ps, grid, j - 1), Diverging(ps, grid[j]), AtRisk(ps, grid[j]))
  }

  /** The plotting loop. There is at least one prompt: without any, the selection of divergence times fails before
      the loop. */
  method SurvivalCurve(ps: seq<Prompt>) returns (grid: seq<nat>, surv: seq<real>)
    requires |ps| > 0
    ensures grid == Grid(ps) && |surv| == |grid|
    ensures forall j :: 0 <= j < |grid| ==> surv[j] == ProductLimit(ps, grid, j)
  {
    grid := Grid(ps);
    surv := [];
    var s := 1.0;
    for i := 0 to |grid|
      invariant |surv| == i
      invariant s == if i == 0 then 1.0 else ProductLimit(ps, grid, i - 1)
      invariant forall j :: 0 <= j < i ==> surv[j] == ProductLimit(ps, grid, j)
    {
      var atRisk, d := AtRisk(ps, grid[i]), Diverging(ps, grid[i]);
      s := Step(s, d, atRisk);
      surv := surv + [s];
    }
  }

  /** The loop body's update of the running product. */
  method Step(s: real, d: nat, atRisk: nat) returns (next: real)
    ensures next == Survivors(s, d, atRisk)
  {
    next := s;
    if atRisk != 0 {
      next := next * (1.0 - d as real / atRisk as real);
    }
  }

  // ---------------------------------------------------------------- bounds

  /** `s` of `total` prompts. */
  function Mass(total: nat, s: real): real {
    total as real * s
  }

  predicate Bracket(lo: int, mass: real, hi: int) {
    lo as real <= mass <= hi as real
  }

  /** One factor of the product moves both bounds by the number that diverge. */
  lemma FactorStep(total: nat, s: real, n: nat, d: nat, gone: nat)
    requires total > 0 && d <= n && n > 0 && 0.0 <= s
    requires Bracket(n, Mass(total, s), total - gone)
    ensures 0.0 <= Survivors(s, d, n) <= s
    ensures Bracket(n - d, Mass(total, Survivors(s, d, n)), total - (gone + d))
  {
    ShareStep(total as real, s, n as real, d as real, gone as real, d as real / n as real);
  }

  lemma ShareStep(total: real, s: real, n: real, d: real, gone: real, share: real)
    requires total > 0.0 && 0.0 <= d <= n && n > 0.0 && share * n == d && 0.0 <= s
    requires n <= total * s <= total - gone
    ensures 0.0 <= s * (1.0 - share) <= s
    ensures n - d <= total * (s * (1.0 - share)) <= total - (gone + d)
  {
    assert 0.0 <= share <= 1.0;
    Products(s, share);
    var mass := total * s;
    Associate(total, s, 1.0 - share);
    Products(mass - n, share);
    assert (mass - n) * share == mass * share - d by { SubtractTimes(mass, n, share); }
    assert mass * (1.0 - share) == mass - mass * share;
  }

  lemma SubtractTimes(x: real, y: real, z: real)
    ensures (x - y) * z == x * z - y * z
  {
  }

  lemma Products(x: real, share: real)
    requires x >= 0.0 && 0.0 <= share <= 1.0
    ensures 0.0 <= x * share && 0.0 <= x * (1.0 - share) <= x
  {
    assert x * (1.0 - share) == x - x * share;
  }

  lemma Associate(x: real, y: real, z: real)
    ensures x * (y * z) == (x * y) * z
  {
  }

  /** `s` of all prompts is between the prompts known identical beyond `g` and the prompts not known to have
      diverged by `g`. */
  ghost predicate Between(ps: seq<Prompt>, s: real, g: nat) {
    Bracket(Beyond(ps, g), Mass(|ps|, s), |ps| - DivergedBy(ps, g))
  }

  lemma WholeMass(total: nat)
    ensures Mass(total, 1.0) == total as real
  {
  }

  /** The first grid point. */
  lemma FirstPoint(ps: seq<Prompt>)
    requires |ps| > 0
    ensures 0.0 <= Survivors(1.0, Diverging(ps, 0), AtRisk(ps, 0)) <= 1.0
    ensures Between(ps, Survivors(1.0, Diverging(ps, 0), AtRisk(ps, 0)), 0)
  {
    hide Survivors, Mass;
    CountsAtZero(ps);
    CountBounds(ps, 0);
    assert Bracket(|ps|, Mass(|ps|, 1.0), |ps|) by { WholeMass(|ps|); }
    FactorStep(|ps|, 1.0, |ps|, Diverging(ps, 0), 0);
  }

  /** A later grid point. */
  lemma NextPoint(ps: seq<Prompt>, s: real, lo: nat, g: nat)
    requires |ps| > 0 && lo < g && QuietBetween(ps, lo, g) && (exists p :: p in ps && p.time >= g)
    requires 0.0 <= s && Between(ps, s, lo)
    ensures 0.0 <= Survivors(s, Diverging(ps, g), AtRisk(ps, g)) <= s
    ensures Between(ps, Survivors(s, Diverging(ps, g), AtRisk(ps, g)), g)
  {
    hide Survivors, Mass;
    CountsMove(ps, lo, g);
    CountBounds(ps, g);
    FactorStep(|ps|, s, AtRisk(ps, g), Diverging(ps, g), DivergedBy(ps, lo));
  }

  /** At every grid point the estimate is in [0, 1], not above its predecessor, and within both counts. */
  lemma {:induction false} CurveBounds(ps: seq<Prompt>, j: nat)
    requires |ps| > 0 && j < |Grid(ps)|
    ensures 0.0 <= ProductLimit(ps, Grid(ps), j) <= 1.0
    ensures j > 0 ==> ProductLimit(ps, Grid(ps), j) <= ProductLimit(ps, Grid(ps), j - 1)
    ensures Between(ps, ProductLimit(ps, Grid(ps), j), Grid(ps)[j])
  {
    var grid := Grid(ps);
    if j == 0 {
      FirstPoint(ps);
    } else {
      CurveBounds(ps, j - 1);
      GridIsQuiet(ps, j);
      assert grid[j] in grid;
      NextPoint(ps, ProductLimit(ps, grid, j - 1), grid[j - 1], grid[j]);
    }
  }

  /** The step drawn at `g`: the value of the last grid point not after it. */
  function StepIndex(grid: seq<nat>, g: nat): (j: nat)
    requires |grid| > 0 && grid[0] == 0 && Increasing(grid)
    ensures j < |grid| && grid[j] <= g && (j + 1 < |grid| ==> g < grid[j + 1])
  {
    if grid[|grid| - 1] <= g then |grid| - 1 else StepIndex(grid[..|grid| - 1], g)
  }

  lemma StepIndexGrows(grid: seq<nat>, g: nat, h: nat)
    requires |grid| > 0 && grid[0] == 0 && Increasing(grid) && g <= h
    ensures StepIndex(grid, g) <= StepIndex(grid, h)
  {
    var i, j := StepIndex(grid, g), StepIndex(grid, h);
  }

  /** The drawn step function at any position. */
  function Survival(ps: seq<Prompt>, g: nat): real {
    ProductLimit(ps, Grid(ps), StepIndex(Grid(ps), g))
  }

  /** A share of the prompts. */
  function ShareOf(count: int, total: nat): real
    requires total > 0
  {
    count as real / total as real
  }

  /** At every position the curve lies between the share of prompts known identical beyond it and the share not
      known to have diverged; without censoring so far it is exactly that share. */
  lemma SurvivalBounds(ps: seq<Prompt>, g: nat)
    requires |ps| > 0
    ensures ShareOf(Beyond(ps, g), |ps|) <= Survival(ps, g) <= 1.0 - ShareOf(DivergedBy(ps, g), |ps|)
    ensures !CensoredBy(ps, g) ==>
              ShareOf(Beyond(ps, g), |ps|) == Survival(ps, g) == 1.0 - ShareOf(DivergedBy(ps, g), |ps|)
  {
    hide Survivors, Mass, ShareOf;
    var j := StepIndex(Grid(ps), g);
    var lo := Grid(ps)[j];
    CurveBounds(ps, j);
    GridIsQuietAfter(ps, j, g);
    CountsStay(ps, lo, g);
    CountBounds(ps, g);
    Shares(|ps|, Survival(ps, g), Beyond(ps, g), DivergedBy(ps, g));
  }

  lemma Shares(total: nat, s: real, beyond: int, gone: int)
    requires total > 0 && Bracket(beyond, Mass(total, s), total - gone)
    ensures ShareOf(beyond, total) <= s <= 1.0 - ShareOf(gone, total)
    ensures beyond == total - gone ==> ShareOf(beyond, total) == s == 1.0 - ShareOf(gone, total)
  {
    var mass := Mass(total, s);
    assert (total - gone) as real == total as real - gone as real;
    CancelShares(total as real, s, beyond as real, gone as real, mass, ShareOf(beyond, total), ShareOf(gone, total));
  }

  lemma CancelShares(n: real, s: real, beyond: real, gone: real, mass: real, b: real, d: real)
    requires n > 0.0 && mass == n * s && beyond <= mass <= n - gone
    requires b == beyond / n && d == gone / n
    ensures b <= s <= 1.0 - d
    ensures beyond == n - gone ==> b == s == 1.0 - d
  {
    assert n * b == beyond && n * (1.0 - d) == n - gone;
    Cancel(n, b, s);
    Cancel(n, s, 1.0 - d);
    if beyond == n - gone {
      Cancel(n, s, b);
      Cancel(n, 1.0 - d, s);
    }
  }

  lemma Cancel(n: real, x: real, y: real)
    requires n > 0.0 && n * x <= n * y
    ensures x <= y
  {
    assert n * (y - x) == n * y - n * x;
  }

  /** The curve never rises. */
  lemma {:induction false} SurvivalFalls(ps: seq<Prompt>, g: nat, h: nat)
    requires |ps| > 0 && g <= h
    ensures 0.0 <= Survival(ps, h) <= Survival(ps, g) <= 1.0
  {
    hide Survivors, Mass;
    var i, j := StepIndex(Grid(ps), g), StepIndex(Grid(ps), h);
    StepIndexGrows(Grid(ps), g, h);
    CurveBounds(ps, j);
    GridFalls(ps, i, j);
  }

  lemma {:induction false} GridFalls(ps: seq<Prompt>, i: nat, j: nat)
    requires |ps| > 0 && i <= j < |Grid(ps)|
    ensures ProductLimit(ps, Grid(ps), j) <= ProductLimit(ps, Grid(ps), i) <= 1.0
  {
    CurveBounds(ps, j);
    if i == j {
    } else {
      GridFalls(ps, i, j - 1);
    }
  }
}
