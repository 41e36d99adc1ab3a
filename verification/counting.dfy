/** Label counts (`bincount`) and count-weighted totals. */
module Counting {

  ghost predicate Below(labels: seq<nat>, groups: nat) {
    forall k :: 0 <= k < |labels| ==> labels[k] < groups
  }

  /** `bincount`: how often each label occurs. */
  function Bincount(labels: seq<nat>, groups: nat): (r: seq<nat>)
    requires Below(labels, groups)
    ensures |r| == groups
  {
    if |labels| == 0 then seq(groups, _ => 0)
    else
      var front, g := Bincount(labels[..|labels| - 1], groups), labels[|labels| - 1];
      front[g := front[g] + 1]
  }

  /** Counting is the label's multiplicity. */
  lemma {:induction false} BincountMeaning(labels: seq<nat>, groups: nat, g: nat)
    requires Below(labels, groups) && g < groups
    ensures Bincount(labels, groups)[g] == multiset(labels)[g]
  {
    if |labels| == 0 {
    } else {
      assert labels == labels[..|labels| - 1] + [labels[|labels| - 1]];
      BincountMeaning(labels[..|labels| - 1], groups, g);
    }
  }

  /** `mult @ counts`. */
  function Weighted(mult: seq<nat>, counts: seq<nat>): nat
    requires |mult| == |counts|
  {
    if |mult| == 0 then 0
    else Weighted(mult[..|mult| - 1], counts[..|counts| - 1]) + mult[|mult| - 1] * counts[|counts| - 1]
  }

  lemma {:induction false} WeightedBump(mult: seq<nat>, counts: seq<nat>, g: nat)
    requires |mult| == |counts| && g < |mult|
    ensures Weighted(mult, counts[g := counts[g] + 1]) == Weighted(mult, counts) + mult[g]
  {
    var n := |mult| - 1;
    if g < n {
      WeightedBump(mult[..n], counts[..n], g);
      assert counts[g := counts[g] + 1][..n] == counts[..n][g := counts[..n][g] + 1];
    } else {
      assert counts[g := counts[g] + 1][..n] == counts[..n];
    }
  }

  lemma {:induction false} WeightedZero(mult: seq<nat>, counts: seq<nat>)
    requires |mult| == |counts| && forall g :: 0 <= g < |counts| ==> counts[g] == 0
    ensures Weighted(mult, counts) == 0
  {
    if |mult| == 0 {
    } else {
      WeightedZero(mult[..|mult| - 1], counts[..|counts| - 1]);
    }
  }
}
