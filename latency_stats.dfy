/**
 * The statistics `calculate_metrics` takes of the recorded latencies: `statistics.mean`,
 * `min`, `max` and `numpy.percentile` with its default linear interpolation, over exact
 * reals.
 */
module LatencyStats {
  import opened Ranking

  function Sum(s: seq<real>): real
  {
    if s == [] then 0.0 else s[0] + Sum(s[1..])
  }

  /** `statistics.mean(s)` */
  function Mean(s: seq<real>): real
    requires s != []
  {
    Sum(s) / (|s| as real)
  }

  /** `min(s)` */
  function Min(s: seq<real>): (r: real)
    requires s != []
    ensures r in s && forall x <- s :: r <= x
  {
    if |s| == 1 then s[0]
    else
      var rest := Min(s[1..]);
      assert forall x <- s :: x == s[0] || x in s[1..];
      if s[0] <= rest then s[0] else rest
  }

  /** `max(s)` */
  function Max(s: seq<real>): (r: real)
    requires s != []
    ensures r in s && forall x <- s :: x <= r
  {
    if |s| == 1 then s[0]
    else
      var rest := Max(s[1..]);
      assert forall x <- s :: x == s[0] || x in s[1..];
      if s[0] >= rest then s[0] else rest
  }

  function Negated(x: real): real { -x }

  /** `np.sort(s)`: ascending, which is descending by the negated value. */
  function Ascending(s: seq<real>): seq<real>
  {
    SortDesc(s, Negated)
  }

  /**
   * `np.percentile(s, p)` with linear interpolation: on the sorted values, the point at
   * rank (n - 1) * p / 100, interpolated between its two neighbouring values.
   */
  function Percentile(s: seq<real>, p: nat): real
    requires s != [] && p <= 100
  {
    var a := Ascending(s);
    AscendingIsSorted(s);
    var n := |s|;
    RankInRange(n, p);
    var lo := ((n - 1) * p) / 100;
    var frac := (((n - 1) * p) % 100) as real / 100.0;
    var hi := if lo + 1 < n then lo + 1 else n - 1;
    Lerp(a[lo], a[hi], frac)
  }

  lemma MulMonotone(a: nat, b: nat, c: nat)
    requires b <= c
    ensures a * b <= a * c
  {
  }

  /** The rank of a percentile falls on or before the last position. */
  lemma RankInRange(n: nat, p: nat)
    requires 1 <= n && p <= 100
    ensures 0 <= (n - 1) * p <= (n - 1) * 100
    ensures ((n - 1) * p) / 100 <= n - 1
  {
    MulMonotone(n - 1, p, 100);
  }

  /** The point a fraction `t` of the way from `x` to `y`. */
  function Lerp(x: real, y: real, t: real): real
  {
    x + (y - x) * t
  }

  /** The sorted values are in increasing order and are the values of `s`. */
  lemma AscendingIsSorted(s: seq<real>)
    ensures |Ascending(s)| == |s|
    ensures multiset(Ascending(s)) == multiset(s)
    ensures forall i, j :: 0 <= i <= j < |s| ==> Ascending(s)[i] <= Ascending(s)[j]
  {
    var a := Ascending(s);
    SortDescIsStableSort(s, Negated);
    assert |multiset(a)| == |multiset(s)|;
    forall i, j | 0 <= i <= j < |s| ensures a[i] <= a[j] {
      if i < j {
        assert Negated(a[i]) >= Negated(a[j]);
      }
    }
  }

  /** The first sorted value is the minimum, the last the maximum. */
  lemma AscendingEnds(s: seq<real>)
    requires s != []
    ensures |Ascending(s)| == |s|
    ensures Ascending(s)[0] == Min(s) && Ascending(s)[|s| - 1] == Max(s)
  {
    var a := Ascending(s);
    AscendingIsSorted(s);
    assert a[0] in multiset(s) && a[|s| - 1] in multiset(s);
    assert a[0] in s && a[|s| - 1] in s;
    assert Min(s) in multiset(a) && Max(s) in multiset(a);
    var i :| 0 <= i < |a| && a[i] == Min(s);
    var j :| 0 <= j < |a| && a[j] == Max(s);
    assert a[0] <= a[i] && a[j] <= a[|s| - 1];
  }

  lemma ProductNonNegative(x: real, y: real)
    requires 0.0 <= x && 0.0 <= y
    ensures 0.0 <= x * y
  {
  }

  /** Scaling a non-negative `d` by `t` in [0, 1] keeps it in [0, d]. */
  lemma Scaled(d: real, t: real)
    requires 0.0 <= d && 0.0 <= t <= 1.0
    ensures 0.0 <= d * t <= d
  {
    ProductNonNegative(d, t);
    ProductNonNegative(d, 1.0 - t);
    assert d * (1.0 - t) == d - d * t;
  }

  /** Linear interpolation stays between its two ends. */
  lemma LerpBetween(x: real, y: real, t: real)
    requires x <= y && 0.0 <= t <= 1.0
    ensures x <= Lerp(x, y, t) <= y
  {
    var d := y - x;
    var m := d * t;
    Scaled(d, t);
    assert Lerp(x, y, t) == x + m;
  }

  /** ... and grows with `t`. */
  lemma LerpGrows(x: real, y: real, t: real, u: real)
    requires x <= y && 0.0 <= t <= u
    ensures Lerp(x, y, t) <= Lerp(x, y, u)
  {
    var d := y - x;
    var mt, mu := d * t, d * u;
    ProductNonNegative(d, u - t);
    assert d * (u - t) == mu - mt;
    assert Lerp(x, y, t) == x + mt && Lerp(x, y, u) == x + mu;
  }

  /** Every percentile lies between the minimum and the maximum. */
  lemma PercentileBounds(s: seq<real>, p: nat)
    requires s != [] && p <= 100
    ensures Min(s) <= Percentile(s, p) <= Max(s)
  {
    var a := Ascending(s);
    AscendingIsSorted(s);
    AscendingEnds(s);
    var n := |s|;
    var lo := ((n - 1) * p) / 100;
    var frac := (((n - 1) * p) % 100) as real / 100.0;
    var hi := if lo + 1 < n then lo + 1 else n - 1;
    RankInRange(n, p);
    assert 0.0 <= frac <= 1.0;
    LerpBetween(a[lo], a[hi], frac);
    assert Percentile(s, p) == Lerp(a[lo], a[hi], frac);
  }

  /** A higher percentile is never smaller. */
  lemma PercentileMonotone(s: seq<real>, p: nat, q: nat)
    requires s != [] && p <= q <= 100
    ensures Percentile(s, p) <= Percentile(s, q)
  {
    var a := Ascending(s);
    AscendingIsSorted(s);
    var n := |s|;
    RankInRange(n, p);
    RankInRange(n, q);
    MulMonotone(n - 1, p, q);
    var rp, rq := (n - 1) * p, (n - 1) * q;
    var lp, lq := rp / 100, rq / 100;
    var fp, fq := (rp % 100) as real / 100.0, (rq % 100) as real / 100.0;
    var hp := if lp + 1 < n then lp + 1 else n - 1;
    var hq := if lq + 1 < n then lq + 1 else n - 1;
    LerpBetween(a[lp], a[hp], fp);
    LerpBetween(a[lq], a[hq], fq);
    assert Percentile(s, p) == Lerp(a[lp], a[hp], fp);
    assert Percentile(s, q) == Lerp(a[lq], a[hq], fq);
    if lp == lq {
      assert rp % 100 <= rq % 100;
      LerpGrows(a[lp], a[hp], fp, fq);
    } else {
      assert lp < lq;
      assert hp <= lq;
      assert a[hp] <= a[lq];
    }
  }

  /** `n` values between `lo` and `hi` sum to between `n * lo` and `n * hi`. */
  lemma {:induction false} SumBounds(s: seq<real>, lo: real, hi: real)
    requires forall x <- s :: lo <= x <= hi
    ensures (|s| as real) * lo <= Sum(s) <= (|s| as real) * hi
  {
    if s != [] {
      assert forall x <- s[1..] :: x in s;
      SumBounds(s[1..], lo, hi);
      assert s[0] in s;
      var n, m := |s| as real, |s[1..]| as real;
      assert n == m + 1.0;
      assert Sum(s) == s[0] + Sum(s[1..]);
      SumStep(n, m, s[0], Sum(s[1..]), lo, hi);
    } else {
      assert (|s| as real) * lo == 0.0;
    }
  }

  lemma SumStep(n: real, m: real, first: real, rest: real, lo: real, hi: real)
    requires n == m + 1.0
    requires m * lo <= rest <= m * hi && lo <= first <= hi
    ensures n * lo <= first + rest <= n * hi
  {
    assert n * lo == m * lo + lo;
    assert n * hi == m * hi + hi;
  }

  lemma CancelPositive(x: real, y: real, n: real)
    requires 0.0 < n && n * x <= n * y
    ensures x <= y
  {
  }

  lemma QuotientBetween(sum: real, n: real, lo: real, hi: real)
    requires 0.0 < n && n * lo <= sum <= n * hi
    ensures lo <= sum / n <= hi
  {
    var q := sum / n;
    assert n * q == sum;
    CancelPositive(lo, q, n);
    CancelPositive(q, hi, n);
  }

  /** The mean lies between the minimum and the maximum. */
  lemma MeanBounds(s: seq<real>)
    requires s != []
    ensures Min(s) <= Mean(s) <= Max(s)
  {
    SumBounds(s, Min(s), Max(s));
    QuotientBetween(Sum(s), |s| as real, Min(s), Max(s));
  }
}
