/** Holm's step-down correction, `holm_adjust` of src/matf_vpn/final_analysis.py, over the reals. */
module Holm {
  import opened Reals
  import opened Sequences

  // ----- the sorted index order

  /** Distinct valid indices in order of their values. */
  ghost predicate Ranked(p: seq<real>, order: seq<nat>) {
    && (forall r :: 0 <= r < |order| ==> order[r] < |p|)
    && (forall r, s :: 0 <= r < s < |order| ==> order[r] != order[s] && p[order[r]] <= p[order[s]])
  }

  /** All indices of `p`, in order of their values. */
  ghost predicate Sorts(p: seq<real>, order: seq<nat>) {
    Ranked(p, order) && |order| == |p| && forall k: nat :: k in order <==> k < |p|
  }

  /** Where index `i` goes among the sorted indices before it: behind those with no larger value. */
  function Insert(p: seq<real>, order: seq<nat>, i: nat): seq<nat>
    requires i < |p| && forall k :: 0 <= k < |order| ==> order[k] < |p|
  {
    if order == [] then [i]
    else if p[i] < p[order[0]] then [i] + order
    else [order[0]] + Insert(p, order[1..], i)
  }

  lemma {:induction false} InsertRanked(p: seq<real>, order: seq<nat>, i: nat)
    requires i < |p| && Ranked(p, order) && i !in order
    ensures Ranked(p, Insert(p, order, i))
    ensures |Insert(p, order, i)| == |order| + 1
    ensures forall k :: k in Insert(p, order, i) <==> k == i || k in order
  {
    if order != [] && p[i] >= p[order[0]] {
      var tail := order[1..];
      assert order == [order[0]] + tail;
      InsertRanked(p, tail, i);
      var o := Insert(p, tail, i);
      assert Insert(p, order, i) == [order[0]] + o;
      hide Insert;
      forall r | 0 <= r < |o| ensures o[r] != order[0] && p[order[0]] <= p[o[r]] {
        assert o[r] in o;
        if o[r] != i {
          var q :| 0 <= q < |tail| && tail[q] == o[r];
          assert order[q + 1] == o[r];
        }
      }
    }
  }

  /** `sorted(range(n), key=p)`: stable, by insertion. */
  function SortedOrder(p: seq<real>, n: nat): (order: seq<nat>)
    requires n <= |p|
    ensures Ranked(p, order) && |order| == n
    ensures forall k: nat :: k in order <==> k < n
  {
    if n == 0 then []
    else
      var before := SortedOrder(p, n - 1);
      InsertRanked(p, before, n - 1);
      Insert(p, before, n - 1)
  }

  // ----- what the correction is to compute

  function Times(k: nat, x: real): real { k as real * x }

  /** A p-value corrected for `k` hypotheses. */
  function Bonferroni(k: nat, x: real): real {
    Min(1.0, Times(k, x))
  }

  /** The corrected value at rank `r`. */
  function Corrected(p: seq<real>, order: seq<nat>, r: nat): real
    requires r < |order| == |p| && order[r] < |p|
  {
    Bonferroni(|p| - r, p[order[r]])
  }

  /** The running maximum after ranks 0 to `r`. */
  function RunningMax(p: seq<real>, order: seq<nat>, r: nat): real
    requires r <= |order| == |p| && forall k :: 0 <= k < |order| ==> order[k] < |p|
  {
    if r == 0 then 0.0 else Max(RunningMax(p, order, r - 1), Corrected(p, order, r - 1))
  }

  lemma RunningMaxStep(p: seq<real>, order: seq<nat>, r: nat)
    requires r < |order| == |p| && forall k :: 0 <= k < |order| ==> order[k] < |p|
    ensures RunningMax(p, order, r + 1) == Max(RunningMax(p, order, r), Bonferroni(|p| - r, p[order[r]]))
  {
  }

  /** The value for index `i`: the running maximum at its rank. */
  function Adjusted(p: seq<real>, order: seq<nat>, i: nat): real
    requires Sorts(p, order) && i < |p|
  {
    RunningMax(p, order, IndexOf(order, i) + 1)
  }

  /** The loop: runs along the sorted order and writes each index's running maximum in place. */
  method StepDown(p: seq<real>, order: seq<nat>, adjusted: array<real>)
    requires Ranked(p, order) && |order| == |p| == adjusted.Length
    modifies adjusted
    ensures forall r :: 0 <= r < |p| ==> adjusted[order[r]] == RunningMax(p, order, r + 1)
  {
    hide RunningMax, Bonferroni, Max;
    var runningMax := 0.0;
    var count := |p|;
    RunningMaxStart(p, order);
    for rank := 0 to |order|
      invariant runningMax == RunningMax(p, order, rank)
      invariant forall r :: 0 <= r < rank ==> adjusted[order[r]] == RunningMax(p, order, r + 1)
    {
      var index := order[rank];
      RunningMaxStep(p, order, rank);
      var corrected := Bonferroni(count - rank, p[index]);
      runningMax := Max(runningMax, corrected);
      adjusted[index] := runningMax;
    }
  }

  method HolmAdjust(p: seq<real>) returns (result: seq<real>)
    ensures |result| == |p|
    ensures forall i :: 0 <= i < |p| ==> result[i] == Adjusted(p, SortedOrder(p, |p|), i)
  {
    var order := SortedOrder(p, |p|);
    var adjusted := new real[|p|](_ => 0.0);
    StepDown(p, order, adjusted);
    hide SortedOrder, RunningMax;
    result := adjusted[..];
  }

  lemma RunningMaxStart(p: seq<real>, order: seq<nat>)
    requires |order| == |p| && forall k :: 0 <= k < |order| ==> order[k] < |p|
    ensures RunningMax(p, order, 0) == 0.0
  {
  }

  // ----- an order-free reading

  /** The hypotheses with p-values at least `x`. */
  function AtLeast(p: seq<real>, x: real): set<nat> {
    set k: nat | k < |p| && p[k] >= x
  }

  ghost predicate ProperP(p: seq<real>) {
    forall i :: 0 <= i < |p| ==> 0.0 <= p[i] <= 1.0
  }

  /** Holm's rule by ranks: the p-values up to rank `r` all pass, each against the hypotheses not yet rejected. */
  ghost predicate PassesToRank(p: seq<real>, order: seq<nat>, r: nat, alpha: real)
    requires Sorts(p, order) && r < |p|
  {
    forall j :: 0 <= j <= r ==> Times(|p| - j, p[order[j]]) < alpha
  }

  /** The same without ranks: `i` and every smaller p-value pass against the hypotheses with values at least theirs. */
  ghost predicate Rejected(p: seq<real>, i: nat, alpha: real)
    requires i < |p|
  {
    forall k: nat :: k < |p| && p[k] <= p[i] ==> Times(|AtLeast(p, p[k])|, p[k]) < alpha
  }

  lemma {:induction false} RunningMaxBelow(p: seq<real>, order: seq<nat>, m: nat, alpha: real)
    requires m <= |order| == |p| && forall k :: 0 <= k < |order| ==> order[k] < |p|
    ensures RunningMax(p, order, m) < alpha <==>
      0.0 < alpha && forall j :: 0 <= j < m ==> Corrected(p, order, j) < alpha
  {
    if m > 0 { RunningMaxBelow(p, order, m - 1, alpha); }
    hide Bonferroni;
  }

  lemma Scale(k: nat, m: nat, x: real, y: real)
    requires k <= m && 0.0 <= x <= y
    ensures 0.0 <= Times(k, x) <= Times(m, y)
    ensures Times(1, x) == x
  {
    assert (m - k) as real * y >= 0.0;
    assert m as real * y == k as real * y + (m - k) as real * y;
  }

  /** A level at most 1 is decided exactly as Holm's step-down procedure does. */
  lemma DecidesByRank(p: seq<real>, order: seq<nat>, i: nat, alpha: real)
    requires Sorts(p, order) && ProperP(p) && i < |p| && alpha <= 1.0
    ensures Adjusted(p, order, i) < alpha <==> PassesToRank(p, order, IndexOf(order, i), alpha)
  {
    var r := IndexOf(order, i);
    RunningMaxBelow(p, order, r + 1, alpha);
    Scale(0, |p|, p[order[0]], p[order[0]]);
    hide Times, RunningMax;
    assert forall j :: 0 <= j <= r ==> (Corrected(p, order, j) < alpha <==> Times(|p| - j, p[order[j]]) < alpha);
    if PassesToRank(p, order, r, alpha) {
      assert Times(|p| - 0, p[order[0]]) < alpha;
    }
  }

  /** The p-values at least that of rank `j` are those from the first rank with its value on. */
  lemma AtLeastFromRank(p: seq<real>, order: seq<nat>, j: nat) returns (first: nat)
    requires Sorts(p, order) && j < |p|
    ensures first <= j && p[order[first]] == p[order[j]]
    ensures first > 0 ==> p[order[first - 1]] < p[order[j]]
    ensures |AtLeast(p, p[order[j]])| == |p| - first
  {
    first := j;
    while first > 0 && p[order[first - 1]] == p[order[j]]
      invariant first <= j && p[order[first]] == p[order[j]]
    {
      first := first - 1;
    }
    TailIsAtLeast(p, order, first);
    DistinctSize(order[first..]);
  }

  lemma TailIsAtLeast(p: seq<real>, order: seq<nat>, first: nat)
    requires Sorts(p, order) && first < |p|
    requires first > 0 ==> p[order[first - 1]] < p[order[first]]
    ensures Elements(order[first..]) == AtLeast(p, p[order[first]])
    ensures Distinct(order[first..])
  {
    var tail := order[first..];
    forall k: nat | k < |p| ensures k in tail <==> p[k] >= p[order[first]] {
      var r := IndexOf(order, k);
      if r >= first { assert tail[r - first] == k; }
    }
  }

  /** Ranks and counts say the same. */
  lemma RanksAreCounts(p: seq<real>, order: seq<nat>, i: nat, alpha: real)
    requires Sorts(p, order) && ProperP(p) && i < |p|
    ensures PassesToRank(p, order, IndexOf(order, i), alpha) <==> Rejected(p, i, alpha)
  {
    var r := IndexOf(order, i);
    hide Times, AtLeast;
    if Rejected(p, i, alpha) {
      forall j | 0 <= j <= r ensures Times(|p| - j, p[order[j]]) < alpha {
        var first := AtLeastFromRank(p, order, j);
        Scale(|p| - j, |p| - first, p[order[j]], p[order[j]]);
      }
    }
    if PassesToRank(p, order, r, alpha) {
      forall k: nat | k < |p| && p[k] <= p[i] ensures Times(|AtLeast(p, p[k])|, p[k]) < alpha {
        var j := IndexOf(order, k);
        var first := AtLeastFromRank(p, order, j);
      }
    }
  }

  /** The decision theorem, free of ranks and of how ties were ordered. */
  lemma HolmDecides(p: seq<real>, order: seq<nat>, i: nat, alpha: real)
    requires Sorts(p, order) && ProperP(p) && i < |p| && alpha <= 1.0
    ensures Adjusted(p, order, i) < alpha <==>
      forall j | 0 <= j <= IndexOf(order, i) :: (|p| - j) as real * p[order[j]] < alpha
    ensures Adjusted(p, order, i) < alpha <==>
      forall k: nat | k < |p| && p[k] <= p[i] :: |AtLeast(p, p[k])| as real * p[k] < alpha
    ensures Adjusted(p, order, i) < alpha <==> Rejected(p, i, alpha)
  {
    DecidesByRank(p, order, i, alpha);
    RanksAreCounts(p, order, i, alpha);
  }

  lemma {:induction false} RunningMaxBounds(p: seq<real>, order: seq<nat>, m: nat, bound: real)
    requires m <= |order| == |p| && forall k :: 0 <= k < |order| ==> order[k] < |p|
    requires 0.0 <= bound && forall j :: 0 <= j < m ==> Corrected(p, order, j) <= bound
    ensures RunningMax(p, order, m) <= bound
    ensures m > 0 ==> RunningMax(p, order, m) >= Corrected(p, order, m - 1)
  {
    if m > 0 { RunningMaxBounds(p, order, m - 1, bound); }
    hide Bonferroni;
  }

  /** An adjusted value lies between the p-value and its Bonferroni correction. */
  lemma HolmBounds(p: seq<real>, order: seq<nat>, i: nat)
    requires Sorts(p, order) && ProperP(p) && i < |p|
    ensures p[i] <= Adjusted(p, order, i) <= 1.0
    ensures Adjusted(p, order, i) <= |p| as real * p[i]
    ensures Adjusted(p, order, i) <= Bonferroni(|p|, p[i])
  {
    var r := IndexOf(order, i);
    Scale(0, |p|, p[i], p[i]);
    hide Times, RunningMax;
    forall j | 0 <= j <= r ensures Corrected(p, order, j) <= Bonferroni(|p|, p[i]) {
      Scale(|p| - j, |p|, p[order[j]], p[i]);
    }
    RunningMaxBounds(p, order, r + 1, Bonferroni(|p|, p[i]));
    Scale(1, |p| - r, p[i], p[i]);
  }

  /** Whoever is rejected no less often has no larger value. */
  lemma RejectionOrders(p: seq<real>, order: seq<nat>, i: nat, q: seq<real>, order': seq<nat>, k: nat)
    requires Sorts(p, order) && ProperP(p) && i < |p|
    requires Sorts(q, order') && ProperP(q) && k < |q|
    requires forall alpha: real :: Rejected(q, k, alpha) ==> Rejected(p, i, alpha)
    ensures Adjusted(p, order, i) <= Adjusted(q, order', k)
  {
    var a := Adjusted(p, order, i);
    HolmBounds(p, order, i);
    assert a <= 1.0;
    hide Adjusted, Rejected;
    HolmDecides(p, order, i, a);
    HolmDecides(q, order', k, a);
  }

  /**
   Larger p-values never get smaller adjusted values; equal ones get equal values, in whatever order they were sorted.
   */
  lemma HolmKeepsOrder(p: seq<real>, order: seq<nat>, order': seq<nat>, i: nat, k: nat)
    requires Sorts(p, order) && Sorts(p, order') && ProperP(p) && i < |p| && k < |p| && p[i] <= p[k]
    ensures Adjusted(p, order, i) <= Adjusted(p, order', k)
    ensures p[i] == p[k] ==> Adjusted(p, order, i) == Adjusted(p, order', k)
  {
    assert forall alpha: real :: Rejected(p, k, alpha) ==> Rejected(p, i, alpha);
    assert p[i] == p[k] ==> forall alpha: real :: Rejected(p, i, alpha) ==> Rejected(p, k, alpha);
    hide Rejected;
    RejectionOrders(p, order, i, p, order', k);
    if p[i] == p[k] { RejectionOrders(p, order', k, p, order, i); }
  }

  // ----- rearranging the input

  ghost predicate Permutation(pi: seq<nat>, n: nat) {
    |pi| == n && Distinct(pi) && (forall k: nat :: k in pi <==> k < n) && (forall k :: 0 <= k < n ==> pi[k] < n)
  }

  ghost predicate Rearranged(p: seq<real>, q: seq<real>, pi: seq<nat>) {
    Permutation(pi, |p|) && |q| == |p| && forall k :: 0 <= k < |q| ==> q[k] == p[pi[k]]
  }

  lemma {:induction false} ImageSize(a: set<nat>, pi: seq<nat>, b: set<nat>)
    requires Distinct(pi) && forall k :: k in a ==> k < |pi|
    requires b == set k | k in a :: pi[k]
    ensures |a| == |b|
    decreases a
  {
    if a != {} {
      var x :| x in a;
      assert b - {pi[x]} == set k | k in a - {x} :: pi[k];
      ImageSize(a - {x}, pi, b - {pi[x]});
      assert pi[x] in b;
      assert |a| == |a - {x}| + 1 && |b| == |b - {pi[x]}| + 1;
    }
  }

  lemma SameCounts(p: seq<real>, q: seq<real>, pi: seq<nat>, x: real)
    requires Rearranged(p, q, pi)
    ensures |AtLeast(q, x)| == |AtLeast(p, x)|
  {
    var image := set k | k in AtLeast(q, x) :: pi[k];
    forall k: nat | k in AtLeast(p, x) ensures k in image {
      var j := IndexOf(pi, k);
      assert q[j] == p[k] && j in AtLeast(q, x);
    }
    assert image == AtLeast(p, x);
    ImageSize(AtLeast(q, x), pi, image);
  }

  lemma RejectedAlike(p: seq<real>, q: seq<real>, pi: seq<nat>, i: nat, alpha: real)
    requires Rearranged(p, q, pi) && i < |p|
    ensures Rejected(q, i, alpha) <==> Rejected(p, pi[i], alpha)
  {
    hide AtLeast, Times;
    if Rejected(q, i, alpha) {
      forall k: nat | k < |p| && p[k] <= p[pi[i]] ensures Times(|AtLeast(p, p[k])|, p[k]) < alpha {
        var j := IndexOf(pi, k);
        assert q[j] == p[k];
        SameCounts(p, q, pi, p[k]);
      }
    }
    if Rejected(p, pi[i], alpha) {
      forall k: nat | k < |q| && q[k] <= q[i] ensures Times(|AtLeast(q, q[k])|, q[k]) < alpha {
        SameCounts(p, q, pi, q[k]);
        assert p[pi[k]] == q[k];
      }
    }
  }

  /** The correction commutes with any rearrangement of the p-values. */
  lemma HolmCommutes(p: seq<real>, order: seq<nat>, q: seq<real>, order': seq<nat>, pi: seq<nat>, i: nat)
    requires Sorts(p, order) && Sorts(q, order') && ProperP(p) && Rearranged(p, q, pi) && i < |p|
    ensures Adjusted(q, order', i) == Adjusted(p, order, pi[i])
  {
    assert ProperP(q);
    forall alpha: real ensures Rejected(q, i, alpha) <==> Rejected(p, pi[i], alpha) {
      RejectedAlike(p, q, pi, i, alpha);
    }
    hide Rejected;
    RejectionOrders(q, order', i, p, order, pi[i]);
    RejectionOrders(p, order, pi[i], q, order', i);
  }
}
