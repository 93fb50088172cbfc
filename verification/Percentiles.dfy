/** The order statistics of `summarize` and `_percentile` in src/matf_vpn/benchmark.py, over the reals. */
module Percentiles {
  import opened Outcome

  ghost predicate Ascending(v: seq<real>) {
    forall i, j :: 0 <= i < j < |v| ==> v[i] <= v[j]
  }

  // ----- sorted copies

  function Insert(v: seq<real>, x: real): seq<real> {
    if v == [] then [x]
    else if x < v[0] then [x] + v
    else [v[0]] + Insert(v[1..], x)
  }

  function Sorted(samples: seq<real>): seq<real> {
    if samples == [] then [] else Insert(Sorted(samples[..|samples| - 1]), samples[|samples| - 1])
  }

  lemma {:induction false} InsertAbove(v: seq<real>, x: real, low: real)
    requires x >= low && forall i :: 0 <= i < |v| ==> v[i] >= low
    ensures forall i :: 0 <= i < |Insert(v, x)| ==> Insert(v, x)[i] >= low
  {
    if v != [] { InsertAbove(v[1..], x, low); }
  }

  lemma {:induction false} InsertAscending(v: seq<real>, x: real)
    requires Ascending(v)
    ensures Ascending(Insert(v, x))
  {
    if v != [] && x >= v[0] {
      InsertAscending(v[1..], x);
      InsertAbove(v[1..], x, v[0]);
      assert Insert(v, x) == [v[0]] + Insert(v[1..], x);
      hide Insert;
    }
  }

  lemma {:induction false} InsertAdds(v: seq<real>, x: real)
    ensures multiset(Insert(v, x)) == multiset(v) + multiset{x}
  {
    if v != [] {
      assert v == [v[0]] + v[1..];
      InsertAdds(v[1..], x);
      assert multiset([x] + v) == multiset(v) + multiset{x};
      assert multiset([v[0]] + Insert(v[1..], x)) == multiset{v[0]} + multiset(Insert(v[1..], x));
    }
  }

  lemma {:induction false} SortedIsSorted(samples: seq<real>)
    ensures Ascending(Sorted(samples)) && multiset(Sorted(samples)) == multiset(samples)
    ensures |Sorted(samples)| == |samples|
    decreases |samples|
  {
    if samples != [] {
      var init, x := samples[..|samples| - 1], samples[|samples| - 1];
      SortedIsSorted(init);
      InsertAscending(Sorted(init), x);
      InsertAdds(Sorted(init), x);
      hide Insert;
      assert samples == init + [x];
    }
    assert |multiset(Sorted(samples))| == |Sorted(samples)|;
  }

  /** A multiset of numbers has one ascending arrangement. */
  lemma {:induction false} AscendingUnique(v: seq<real>, w: seq<real>)
    requires Ascending(v) && Ascending(w) && multiset(v) == multiset(w)
    ensures v == w
    decreases |v|
  {
    assert |v| == |multiset(v)| == |multiset(w)| == |w|;
    if v != [] {
      FirstIsLeast(v, w);
      FirstIsLeast(w, v);
      assert v == [v[0]] + v[1..] && w == [w[0]] + w[1..];
      assert multiset(v[1..]) == multiset(v) - multiset{v[0]};
      assert multiset(w[1..]) == multiset(w) - multiset{w[0]};
      AscendingUnique(v[1..], w[1..]);
    }
  }

  lemma FirstIsLeast(v: seq<real>, w: seq<real>)
    requires Ascending(v) && multiset(v) == multiset(w) && v != [] && w != []
    ensures v[0] <= w[0]
  {
    assert w[0] in multiset(v);
    var i :| 0 <= i < |v| && v[i] == w[0];
  }

  // ----- percentiles

  function Ceiling(x: real): int { -((-x).Floor) }

  function Position(n: nat, fraction: real): real { (n - 1) as real * fraction }

  function Percentile(values: seq<real>, fraction: real): real
    requires values != [] && 0.0 <= fraction <= 1.0
  {
    if |values| == 1 then values[0]
    else
      PositionInRange(|values|, fraction);
      var position := Position(|values|, fraction);
      var lower, upper := position.Floor, Ceiling(position);
      if lower == upper then values[lower]
      else
        var weight := position - lower as real;
        values[lower] * (1.0 - weight) + values[upper] * weight
  }

  lemma PositionMonotone(n: nat, f: real, g: real)
    requires n > 0 && f <= g
    ensures Position(n, f) <= Position(n, g)
    ensures Position(n, 0.0) == 0.0 && Position(n, 1.0) == (n - 1) as real
  {
    assert (n - 1) as real * (g - f) >= 0.0;
    assert (n - 1) as real * g == (n - 1) as real * f + (n - 1) as real * (g - f);
  }

  lemma PositionInRange(n: nat, fraction: real)
    requires n > 0 && 0.0 <= fraction <= 1.0
    ensures 0.0 <= Position(n, fraction) <= (n - 1) as real
    ensures 0 <= Position(n, fraction).Floor <= Ceiling(Position(n, fraction)) < n
  {
    PositionMonotone(n, 0.0, fraction);
    PositionMonotone(n, fraction, 1.0);
  }

  function Rise(weight: real, step: real): real { weight * step }

  /** The polygon through the sorted values, at a position between two of them. */
  ghost function Polygon(v: seq<real>, x: real): real
    requires v != [] && 0.0 <= x <= (|v| - 1) as real
  {
    var k := x.Floor;
    if k == |v| - 1 then v[k] else v[k] + Rise(x - k as real, v[k + 1] - v[k])
  }

  lemma PercentileIsPolygon(v: seq<real>, fraction: real)
    requires v != [] && 0.0 <= fraction <= 1.0
    ensures 0.0 <= Position(|v|, fraction) <= (|v| - 1) as real
    ensures Percentile(v, fraction) == Polygon(v, Position(|v|, fraction))
  {
    PositionInRange(|v|, fraction);
    hide Position;
    var x := Position(|v|, fraction);
    var k := x.Floor;
    if x == k as real {
      assert Ceiling(x) == k;
      if |v| > 1 && k < |v| - 1 { assert Rise(0.0, v[k + 1] - v[k]) == 0.0; }
    } else {
      assert Ceiling(x) == k + 1;
      Blend(v[k], v[k + 1], x - k as real);
    }
  }

  lemma Blend(a: real, b: real, w: real)
    ensures a * (1.0 - w) + b * w == a + Rise(w, b - a)
  {
  }

  lemma RiseMonotone(d: real, w: real, w': real)
    requires d >= 0.0 && w <= w'
    ensures Rise(w, d) <= Rise(w', d)
    ensures Rise(0.0, d) == 0.0 && Rise(1.0, d) == d
  {
    assert (w' - w) * d >= 0.0;
    assert w' * d == w * d + (w' - w) * d;
  }

  /** The polygon stays between the values around it. */
  lemma PolygonWithin(v: seq<real>, x: real)
    requires v != [] && Ascending(v) && 0.0 <= x <= (|v| - 1) as real
    ensures v[x.Floor] <= Polygon(v, x) <= v[if x.Floor == |v| - 1 then x.Floor else x.Floor + 1]
  {
    var k := x.Floor;
    if k < |v| - 1 {
      RiseMonotone(v[k + 1] - v[k], 0.0, x - k as real);
      RiseMonotone(v[k + 1] - v[k], x - k as real, 1.0);
    }
    hide Rise;
  }

  lemma PolygonMonotone(v: seq<real>, x: real, y: real)
    requires v != [] && Ascending(v) && 0.0 <= x <= y <= (|v| - 1) as real
    ensures Polygon(v, x) <= Polygon(v, y)
  {
    var k, m := x.Floor, y.Floor;
    if k == m {
      if k < |v| - 1 { RiseMonotone(v[k + 1] - v[k], x - k as real, y - k as real); }
      hide Rise;
    } else {
      PolygonWithin(v, x);
      PolygonWithin(v, y);
      assert k + 1 <= m;
    }
  }

  lemma PolygonBounded(v: seq<real>, x: real)
    requires v != [] && Ascending(v) && 0.0 <= x <= (|v| - 1) as real
    ensures v[0] <= Polygon(v, x) <= v[|v| - 1]
  {
    PolygonWithin(v, x);
  }

  /** Percentiles grow with the fraction and stay between the extremes. */
  lemma PercentileMonotone(v: seq<real>, f: real, g: real)
    requires v != [] && Ascending(v) && 0.0 <= f <= g <= 1.0
    ensures v[0] <= Percentile(v, f) <= Percentile(v, g) <= v[|v| - 1]
  {
    PercentileIsPolygon(v, f);
    PercentileIsPolygon(v, g);
    hide Percentile, Polygon, Ascending;
    PositionMonotone(|v|, f, g);
    hide Position;
    PolygonMonotone(v, Position(|v|, f), Position(|v|, g));
    PolygonBounded(v, Position(|v|, f));
    PolygonBounded(v, Position(|v|, g));
  }

  function Median(values: seq<real>): real
    requires values != []
  {
    var n := |values|;
    if n % 2 == 1 then values[n / 2] else (values[n / 2 - 1] + values[n / 2]) / 2.0
  }

  /** The percentile at one half is the median. */
  lemma HalfIsMedian(v: seq<real>)
    requires v != []
    ensures Percentile(v, 0.5) == Median(v)
  {
    PositionInRange(|v|, 0.5);
    var x := Position(|v|, 0.5);
    if |v| % 2 == 1 {
      assert x == (|v| / 2) as real;
      assert Ceiling(x) == |v| / 2;
    } else {
      assert x == (|v| / 2 - 1) as real + 0.5;
      assert x.Floor == |v| / 2 - 1 && Ceiling(x) == |v| / 2;
    }
  }

  // ----- the mean

  function Sum(values: seq<real>): real {
    if values == [] then 0.0 else Sum(values[..|values| - 1]) + values[|values| - 1]
  }

  function Mean(values: seq<real>): real
    requires values != []
  {
    Sum(values) / |values| as real
  }

  lemma {:induction false} SumWithin(v: seq<real>, low: real, high: real)
    requires forall i :: 0 <= i < |v| ==> low <= v[i] <= high
    ensures |v| as real * low <= Sum(v) <= |v| as real * high
    decreases |v|
  {
    if v != [] {
      SumWithin(v[..|v| - 1], low, high);
      assert |v| as real * low == (|v| - 1) as real * low + low;
      assert |v| as real * high == (|v| - 1) as real * high + high;
    }
  }

  lemma MeanWithin(v: seq<real>)
    requires v != [] && Ascending(v)
    ensures v[0] <= Mean(v) <= v[|v| - 1]
  {
    SumWithin(v, v[0], v[|v| - 1]);
    Divide(Sum(v), |v| as real, v[0], v[|v| - 1]);
  }

  lemma {:induction false} SumWithout(s: seq<real>, i: nat)
    requires i < |s|
    ensures Sum(s) == Sum(s[..i] + s[i + 1..]) + s[i]
    decreases |s|
  {
    var init, rest := s[..|s| - 1], s[..i] + s[i + 1..];
    if i == |s| - 1 {
      assert rest == init;
    } else {
      SumWithout(init, i);
      assert rest[..|rest| - 1] == init[..i] + init[i + 1..];
    }
  }

  /** Taking away one element takes it from the multiset. */
  lemma MultisetWithout(s: seq<real>, i: nat)
    requires i < |s|
    ensures multiset(s[..i] + s[i + 1..]) == multiset(s) - multiset{s[i]}
  {
    assert s == s[..i] + [s[i]] + s[i + 1..];
  }

  lemma FindIn(s: seq<real>, x: real) returns (i: nat)
    requires x in multiset(s)
    ensures i < |s| && s[i] == x
  {
    i :| 0 <= i < |s| && s[i] == x;
  }

  /** The sum does not depend on the order. */
  lemma {:induction false} SumIgnoresOrder(a: seq<real>, b: seq<real>)
    requires multiset(a) == multiset(b)
    ensures Sum(a) == Sum(b)
    decreases |a|
  {
    assert |a| == |multiset(a)| == |multiset(b)| == |b|;
    if a != [] {
      hide Sum;
      var last := |a| - 1;
      assert a[last] in multiset(a);
      var i := FindIn(b, a[last]);
      MultisetWithout(a, last);
      MultisetWithout(b, i);
      SumWithout(a, last);
      SumWithout(b, i);
      SumIgnoresOrder(a[..last] + a[last + 1..], b[..i] + b[i + 1..]);
    } else {
      assert b == [];
    }
  }

  lemma Divide(s: real, n: real, low: real, high: real)
    requires n > 0.0 && n * low <= s <= n * high
    ensures low <= s / n <= high
  {
    var q := s / n;
    assert n * q == s;
    if q < low { Stretch(q, low, n); }
    if q > high { Stretch(high, q, n); }
  }

  lemma Stretch(a: real, b: real, n: real)
    requires n > 0.0 && a < b
    ensures n * a < n * b
  {
  }

  // ----- the summary

  datatype Summary = Summary(count: nat, minimum: real, maximum: real, mean: real, median: real, p95: real)

  function Summarize(samples: seq<real>): Result<Summary> {
    var values := Sorted(samples);
    if values == [] then Err(ValueError)
    else Ok(Summary(|values|, values[0], values[|values| - 1], Mean(values), Median(values), Percentile(values, 0.95)))
  }

  /**
   Every sample set but the empty one is summarised, with minimum <= median <= p95 <= maximum and the mean between the
   extremes.
   */
  lemma SummaryInOrder(samples: seq<real>)
    ensures Summarize(samples).Ok? <==> samples != []
    ensures Summarize(samples).Ok? ==>
      var s := Summarize(samples).value;
      && s.count == |samples|
      && s.minimum <= s.median <= s.p95 <= s.maximum && s.minimum <= s.mean <= s.maximum
      && (forall x :: x in samples ==> s.minimum <= x <= s.maximum) && s.minimum in samples && s.maximum in samples
  {
    SortedIsSorted(samples);
    var v := Sorted(samples);
    if v != [] {
      PercentileMonotone(v, 0.5, 0.95);
      HalfIsMedian(v);
      MeanWithin(v);
      forall x | x in samples ensures v[0] <= x <= v[|v| - 1] {
        assert x in multiset(v);
        var i :| 0 <= i < |v| && v[i] == x;
      }
      assert v[0] in multiset(samples) && v[|v| - 1] in multiset(samples);
    }
  }

  /**
   Every field, read off the ascending arrangement of the samples: the mean times the count is the sum, the median the
   middle value or the mean of the middle two, and the 95th percentile lies on the line between the two values around
   position 0.95 * (n - 1), counted from 0.
   */
  lemma SummaryValues(samples: seq<real>, v: seq<real>)
    requires samples != [] && Ascending(v) && multiset(v) == multiset(samples)
    ensures Summarize(samples).Ok? && |v| == |samples|
    ensures var s, n := Summarize(samples).value, |v|;
      && s.count == n && s.minimum == v[0] && s.maximum == v[n - 1]
      && s.mean * n as real == Sum(samples)
      && s.median == (if n % 2 == 1 then v[n / 2] else (v[n / 2 - 1] + v[n / 2]) / 2.0)
      && var position := 0.95 * (n - 1) as real;
      var k := position.Floor;
      && 0 <= k < n
      && s.p95 == if k == n - 1 then v[k] else v[k] + (position - k as real) * (v[k + 1] - v[k])
  {
    hide Percentile, Sum, Mean, Sorted, Ascending;
    SortedIsSorted(samples);
    AscendingUnique(Sorted(samples), v);
    SumIgnoresOrder(samples, v);
    MeanTimesCount(v);
    PercentileBetween(v);
    assert |multiset(v)| == |v|;
  }

  lemma PercentileBetween(v: seq<real>)
    requires v != []
    ensures var position := 0.95 * (|v| - 1) as real;
      var k := position.Floor;
      && 0 <= k < |v|
      && Percentile(v, 0.95) == if k == |v| - 1 then v[k] else v[k] + (position - k as real) * (v[k + 1] - v[k])
  {
    hide Percentile;
    PositionInRange(|v|, 0.95);
    PercentileIsPolygon(v, 0.95);
    assert Position(|v|, 0.95) == 0.95 * (|v| - 1) as real;
  }

  lemma MeanTimesCount(v: seq<real>)
    requires v != []
    ensures Mean(v) * |v| as real == Sum(v)
  {
  }

  /** Of 20k + 1 samples, the 95th percentile is the one at place 19k of the ascending arrangement. */
  lemma PercentileOfTwentieths(samples: seq<real>, v: seq<real>, k: nat)
    requires |samples| == 20 * k + 1 && Ascending(v) && multiset(v) == multiset(samples)
    ensures Summarize(samples).Ok? && |v| == |samples| && Summarize(samples).value.p95 == v[19 * k]
  {
    hide Percentile, Sorted, Ascending, Mean;
    SortedIsSorted(samples);
    AscendingUnique(Sorted(samples), v);
    Twentieths(k);
    assert |multiset(v)| == |v|;
    PercentileIsPolygon(v, 0.95);
    WholePosition(v, 19 * k);
  }

  lemma Twentieths(k: nat)
    ensures Position(20 * k + 1, 0.95) == (19 * k) as real
  {
  }

  lemma WholePosition(v: seq<real>, k: nat)
    requires k < |v|
    ensures Polygon(v, k as real) == v[k]
  {
    assert (k as real).Floor == k;
  }

  /** The summary does not depend on the order of the samples. */
  lemma SummaryIgnoresOrder(samples: seq<real>, others: seq<real>)
    requires multiset(samples) == multiset(others)
    ensures Summarize(samples) == Summarize(others)
  {
    SortedIsSorted(samples);
    SortedIsSorted(others);
    AscendingUnique(Sorted(samples), Sorted(others));
  }
}
