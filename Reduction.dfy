/**
 * The reductions of a full batch of waterfall lines: the per-bin mean and
 * maximum over the lines, the median and 95th percentile of the mean
 * spectrum, and their difference, reported as the signal-to-noise ratio.
 *
 * Levels are whole dBm; the mean is an exact rational. The percentile is
 * numpy's default: the value at rank q/100 * (n - 1) of the sorted values,
 * interpolated linearly between the two nearest ranks.
 */
module Reduction {
  /** Whether every line has `bins` values. */
  predicate Rectangular(rows: seq<seq<int>>, bins: nat)
  {
    forall i | 0 <= i < |rows| :: |rows[i]| == bins
  }

  /** The values of bin `j` over all lines. */
  function Column(rows: seq<seq<int>>, bins: nat, j: nat): (col: seq<int>)
    requires Rectangular(rows, bins) && j < bins
    ensures |col| == |rows| && forall i | 0 <= i < |rows| :: col[i] == rows[i][j]
  {
    seq(|rows|, i requires 0 <= i < |rows| => rows[i][j])
  }

  function Max(s: seq<int>): (m: int)
    requires |s| > 0
    ensures forall i | 0 <= i < |s| :: s[i] <= m
    ensures exists i | 0 <= i < |s| :: s[i] == m
  {
    if |s| == 1 then s[0]
    else
      var m' := Max(s[1..]);
      assert forall i | 1 <= i < |s| :: s[i] == s[1..][i - 1];
      if s[0] >= m' then s[0] else m'
  }

  function Min(s: seq<int>): (m: int)
    requires |s| > 0
    ensures forall i | 0 <= i < |s| :: m <= s[i]
    ensures exists i | 0 <= i < |s| :: s[i] == m
  {
    if |s| == 1 then s[0]
    else
      var m' := Min(s[1..]);
      assert forall i | 1 <= i < |s| :: s[i] == s[1..][i - 1];
      if s[0] <= m' then s[0] else m'
  }

  function Sum(s: seq<int>): int
  {
    if s == [] then 0 else s[0] + Sum(s[1..])
  }

  /** The sum lies between the count times the least and the count times the greatest value. */
  lemma {:induction false} SumBounds(s: seq<int>, lo: int, hi: int)
    requires forall i | 0 <= i < |s| :: lo <= s[i] <= hi
    ensures |s| * lo <= Sum(s) <= |s| * hi
    decreases |s|
  {
    if s != [] {
      assert forall i | 0 <= i < |s| - 1 :: s[1..][i] == s[i + 1];
      SumBounds(s[1..], lo, hi);
      assert |s| * lo == lo + (|s| - 1) * lo;
      assert |s| * hi == hi + (|s| - 1) * hi;
    }
  }

  function Mean(s: seq<int>): real
    requires |s| > 0
  {
    Sum(s) as real / |s| as real
  }

  /** Multiplying both sides of an inequality by a non-negative real keeps it. */
  lemma MulMonoReal(a: real, b: real, c: real)
    requires a <= b && 0.0 <= c
    ensures a * c <= b * c
  {
    assert b * c - a * c == (b - a) * c;
  }

  /** A quotient by a positive real lies between the bounds its numerator lies between, scaled. */
  lemma DivBetween(lo: real, x: real, hi: real, n: real)
    requires n > 0.0 && n * lo <= x <= n * hi
    ensures lo <= x / n <= hi
  {
    var y := x / n;
    assert y * n == x;
    if y < lo {
      MulPositive(lo - y, n);
      assert false;
    }
    if y > hi {
      MulPositive(y - hi, n);
      assert false;
    }
  }

  lemma MulPositive(a: real, c: real)
    requires a > 0.0 && c > 0.0
    ensures a * c > 0.0
  {
  }

  /** A product of integers is the same product taken over the reals. */
  lemma {:induction false} ProductAsReal(a: nat, b: int)
    ensures (a * b) as real == a as real * b as real
    decreases a
  {
    if a > 0 {
      ProductAsReal(a - 1, b);
      assert a * b == (a - 1) * b + b;
      assert a as real * b as real == (a - 1) as real * b as real + b as real;
    }
  }

  /** A quotient of integers lies between the bounds its numerator lies between, scaled. */
  lemma QuotientBetween(total: int, count: nat, lo: int, hi: int)
    requires count > 0 && count * lo <= total <= count * hi
    ensures lo as real <= total as real / count as real <= hi as real
  {
    ProductAsReal(count, lo);
    ProductAsReal(count, hi);
    DivBetween(lo as real, total as real, hi as real, count as real);
  }

  /** The mean lies between the least and the greatest value. */
  lemma MeanBetween(s: seq<int>)
    requires |s| > 0
    ensures Min(s) as real <= Mean(s) <= Max(s) as real
  {
    SumBounds(s, Min(s), Max(s));
    QuotientBetween(Sum(s), |s|, Min(s), Max(s));
  }

  /** `np.max(wf_data, axis=0)`: the greatest level of each bin. */
  function MaxSpectrum(rows: seq<seq<int>>, bins: nat): (spectrum: seq<int>)
    requires |rows| > 0 && Rectangular(rows, bins)
    ensures |spectrum| == bins
    ensures forall j | 0 <= j < bins :: spectrum[j] == Max(Column(rows, bins, j))
  {
    seq(bins, j requires 0 <= j < bins => Max(Column(rows, bins, j)))
  }

  /** `np.mean(wf_data, axis=0)`: the mean level of each bin. */
  function AvgSpectrum(rows: seq<seq<int>>, bins: nat): (spectrum: seq<real>)
    requires |rows| > 0 && Rectangular(rows, bins)
    ensures |spectrum| == bins
    ensures forall j | 0 <= j < bins :: spectrum[j] == Mean(Column(rows, bins, j))
  {
    seq(bins, j requires 0 <= j < bins => Mean(Column(rows, bins, j)))
  }

  /**
   * The peak of each bin is at least every line's level there and is the
   * level of some line; the average of each bin lies between the least level
   * of that bin and its peak.
   */
  lemma ColumnwiseBounds(rows: seq<seq<int>>, bins: nat, j: nat)
    requires |rows| > 0 && Rectangular(rows, bins) && j < bins
    ensures forall i | 0 <= i < |rows| :: rows[i][j] <= MaxSpectrum(rows, bins)[j]
    ensures exists i | 0 <= i < |rows| :: rows[i][j] == MaxSpectrum(rows, bins)[j]
    ensures Min(Column(rows, bins, j)) as real <= AvgSpectrum(rows, bins)[j] <= MaxSpectrum(rows, bins)[j] as real
  {
    var col := Column(rows, bins, j);
    MeanBetween(col);
    var k :| 0 <= k < |col| && col[k] == Max(col);
    assert rows[k][j] == MaxSpectrum(rows, bins)[j];
  }

  /** The sum of `n` copies of a value. */
  lemma {:induction false} SumConstant(s: seq<int>, v: int)
    requires forall i | 0 <= i < |s| :: s[i] == v
    ensures Sum(s) == |s| * v
    decreases |s|
  {
    if s != [] {
      assert forall i | 0 <= i < |s| - 1 :: s[1..][i] == s[i + 1];
      SumConstant(s[1..], v);
    }
  }

  /** When every line is the same, the mean and the peak spectra are that line. */
  lemma SteadyBatch(rows: seq<seq<int>>, bins: nat, line: seq<int>)
    requires |rows| > 0 && |line| == bins && forall i | 0 <= i < |rows| :: rows[i] == line
    ensures Rectangular(rows, bins)
    ensures MaxSpectrum(rows, bins) == line
    ensures forall j | 0 <= j < bins :: AvgSpectrum(rows, bins)[j] == line[j] as real
  {
    forall j | 0 <= j < bins
      ensures MaxSpectrum(rows, bins)[j] == line[j]
      ensures AvgSpectrum(rows, bins)[j] == line[j] as real
    {
      ConstantColumn(Column(rows, bins, j), line[j]);
    }
  }

  /** A column holding one value throughout has that value as its maximum and its mean. */
  lemma ConstantColumn(col: seq<int>, v: int)
    requires |col| > 0 && forall i | 0 <= i < |col| :: col[i] == v
    ensures Max(col) == v && Mean(col) == v as real
  {
    MeanConstant(col, v);
    var k :| 0 <= k < |col| && col[k] == Max(col);
  }

  lemma MeanConstant(col: seq<int>, v: int)
    requires |col| > 0 && forall i | 0 <= i < |col| :: col[i] == v
    ensures Mean(col) == v as real
  {
    SumConstant(col, v);
    ProductAsReal(|col|, v);
    var n, w, total := |col| as real, v as real, Sum(col) as real;
    assert total == n * w;
    DivBetween(w, total, w, n);
  }

  // ---------------------------------------------------------------------------
  // Percentiles
  // ---------------------------------------------------------------------------

  predicate Sorted(s: seq<real>)
  {
    forall i, j | 0 <= i <= j < |s| :: s[i] <= s[j]
  }

  /** `x` put into its place in a sorted sequence. */
  function Insert(x: real, s: seq<real>): (t: seq<real>)
    requires Sorted(s)
    ensures Sorted(t) && multiset(t) == multiset(s) + multiset{x}
    decreases |s|
  {
    if s == [] then [x]
    else if x <= s[0] then
      InsertFront(x, s);
      [x] + s
    else
      var rest := Insert(x, s[1..]);
      InsertBehind(x, s, rest);
      [s[0]] + rest
  }

  lemma InsertFront(x: real, s: seq<real>)
    requires Sorted(s) && s != [] && x <= s[0]
    ensures Sorted([x] + s) && multiset([x] + s) == multiset(s) + multiset{x}
  {
    var t := [x] + s;
    forall i, j | 0 <= i <= j < |t| ensures t[i] <= t[j] {
      if i > 0 {
        assert t[i] == s[i - 1] && t[j] == s[j - 1];
      } else if j > 0 {
        assert t[j] == s[j - 1] && s[0] <= s[j - 1];
      }
    }
  }

  /** The first element stays in front of the rest with `x` inserted, when `x` is larger. */
  lemma InsertBehind(x: real, s: seq<real>, rest: seq<real>)
    requires Sorted(s) && s != [] && s[0] < x
    requires Sorted(rest) && multiset(rest) == multiset(s[1..]) + multiset{x}
    ensures Sorted([s[0]] + rest) && multiset([s[0]] + rest) == multiset(s) + multiset{x}
  {
    var t := [s[0]] + rest;
    assert s == [s[0]] + s[1..];
    forall i | 0 <= i < |rest| ensures s[0] <= rest[i] {
      assert rest[i] in multiset(rest);
      if rest[i] != x {
        assert rest[i] in multiset(s[1..]);
        var k :| 0 <= k < |s[1..]| && s[1..][k] == rest[i];
        assert s[k + 1] == rest[i];
      }
    }
    forall i, j | 0 <= i <= j < |t| ensures t[i] <= t[j] {
      if i > 0 {
        assert t[i] == rest[i - 1] && t[j] == rest[j - 1];
      } else {
        assert t[j] == s[0] || t[j] == rest[j - 1];
      }
    }
  }

  /** The values in ascending order: a sorted permutation of the input. */
  function SortReals(s: seq<real>): (t: seq<real>)
    ensures Sorted(t) && multiset(t) == multiset(s)
    decreases |s|
  {
    if s == [] then []
    else
      assert s == [s[0]] + s[1..];
      Insert(s[0], SortReals(s[1..]))
  }

  /** The fractional rank of the `q`-th percentile among `n` values. */
  function Rank(q: real, n: nat): real
  {
    q * (n - 1) as real / 100.0
  }

  lemma RankBounds(q: real, n: nat)
    requires n > 0 && 0.0 <= q <= 100.0
    ensures 0.0 <= Rank(q, n) <= (n - 1) as real
  {
    var m := (n - 1) as real;
    MulMonoReal(0.0, q, m);
    MulMonoReal(q, 100.0, m);
    assert 100.0 * 0.0 <= q * m <= 100.0 * m;
    DivBetween(0.0, q * m, m, 100.0);
  }

  lemma RankMonotone(q1: real, q2: real, n: nat)
    requires n > 0 && q1 <= q2
    ensures Rank(q1, n) <= Rank(q2, n)
  {
    MulMonoReal(q1, q2, (n - 1) as real);
  }

  /** The point a fraction `f` of the way from `x` to `y`. */
  function Lerp(x: real, y: real, f: real): (z: real)
    requires x <= y && 0.0 <= f <= 1.0
    ensures x <= z <= y
  {
    var d := y - x;
    ScaleBetween(f, d);
    x + f * d
  }

  /** A fraction of a non-negative length lies between zero and the length. */
  lemma ScaleBetween(f: real, d: real)
    requires 0.0 <= f <= 1.0 && 0.0 <= d
    ensures 0.0 <= f * d <= d
  {
    MulMonoReal(0.0, f, d);
    MulMonoReal(f, 1.0, d);
  }

  /** Further along the same segment is never lower. */
  lemma LerpMonotone(x: real, y: real, f1: real, f2: real)
    requires x <= y && 0.0 <= f1 <= f2 <= 1.0
    ensures Lerp(x, y, f1) <= Lerp(x, y, f2)
  {
    var d := y - x;
    MulMonoReal(f1, f2, d);
    var z1, z2 := x + f1 * d, x + f2 * d;
    assert z1 <= z2;
    assert Lerp(x, y, f1) == z1;
    assert Lerp(x, y, f2) == z2;
  }

  /** The `q`-th percentile of sorted values, interpolating linearly between ranks. */
  function PercentileOfSorted(a: seq<real>, q: real): (p: real)
    requires |a| > 0 && Sorted(a) && 0.0 <= q <= 100.0
    ensures a[0] <= p <= a[|a| - 1]
  {
    RankBounds(q, |a|);
    var lo := Rank(q, |a|).Floor;
    if lo + 1 < |a| then Lerp(a[lo], a[lo + 1], Rank(q, |a|) - lo as real)
    else a[lo]
  }

  /** `np.percentile(values, q)`. */
  function Percentile(values: seq<real>, q: real): (p: real)
    requires |values| > 0 && 0.0 <= q <= 100.0
    ensures exists i | 0 <= i < |values| :: values[i] <= p
    ensures exists i | 0 <= i < |values| :: p <= values[i]
  {
    var a := SortReals(values);
    assert |a| == |multiset(a)| == |multiset(values)| == |values|;
    assert a[0] in multiset(values) && a[|a| - 1] in multiset(values);
    assert a[0] in values && a[|a| - 1] in values;
    PercentileOfSorted(a, q)
  }

  /** The percentile lies between the values at the two nearest ranks. */
  lemma PercentileBetweenRanks(a: seq<real>, q: real)
    requires |a| > 0 && Sorted(a) && 0.0 <= q <= 100.0
    ensures var lo := Rank(q, |a|).Floor;
      0 <= lo < |a| && a[lo] <= PercentileOfSorted(a, q)
      && (lo + 1 < |a| ==> PercentileOfSorted(a, q) <= a[lo + 1])
  {
    RankBounds(q, |a|);
  }

  /** A higher percentile is never below a lower one. */
  lemma PercentileMonotone(a: seq<real>, q1: real, q2: real)
    requires |a| > 0 && Sorted(a) && 0.0 <= q1 <= q2 <= 100.0
    ensures PercentileOfSorted(a, q1) <= PercentileOfSorted(a, q2)
  {
    RankMonotone(q1, q2, |a|);
    RankBounds(q1, |a|);
    RankBounds(q2, |a|);
    var r1, r2 := Rank(q1, |a|), Rank(q2, |a|);
    var lo1, lo2 := r1.Floor, r2.Floor;
    PercentileBetweenRanks(a, q1);
    PercentileBetweenRanks(a, q2);
    if lo1 == lo2 {
      if lo1 + 1 < |a| {
        LerpMonotone(a[lo1], a[lo1 + 1], r1 - lo1 as real, r2 - lo2 as real);
      }
    } else {
      assert lo1 + 1 <= lo2;
      assert a[lo1 + 1] <= a[lo2];
    }
  }

  /** The median of the mean spectrum. */
  function Median(avg: seq<real>): (m: real)
    requires |avg| > 0
    ensures exists i | 0 <= i < |avg| :: avg[i] <= m
    ensures exists i | 0 <= i < |avg| :: m <= avg[i]
  {
    Percentile(avg, 50.0)
  }

  /** The 95th percentile of the mean spectrum, never below the median. */
  function P95(avg: seq<real>): (p: real)
    requires |avg| > 0
    ensures exists i | 0 <= i < |avg| :: p <= avg[i]
    ensures Median(avg) <= p
  {
    var a := SortReals(avg);
    assert |a| == |multiset(a)| == |multiset(avg)| == |avg|;
    PercentileMonotone(a, 50.0, 95.0);
    Percentile(avg, 95.0)
  }

  /** The signal-to-noise ratio is never negative: the 95th percentile is at least the median. */
  function Snr(avg: seq<real>): (snr: real)
    requires |avg| > 0
    ensures snr >= 0.0
    ensures snr == P95(avg) - Median(avg)
  {
    var a := SortReals(avg);
    assert |a| == |multiset(a)| == |multiset(avg)| == |avg|;
    PercentileMonotone(a, 50.0, 95.0);
    P95(avg) - Median(avg)
  }

  /** A spectrum that is flat has a signal-to-noise ratio of zero. */
  lemma FlatSpectrum(avg: seq<real>, v: real)
    requires |avg| > 0 && forall j | 0 <= j < |avg| :: avg[j] == v
    ensures Snr(avg) == 0.0
  {
    FlatPercentile(avg, v, 50.0);
    FlatPercentile(avg, v, 95.0);
  }

  /** Every percentile of a spectrum that is flat at `v` is `v`. */
  lemma FlatPercentile(avg: seq<real>, v: real, q: real)
    requires |avg| > 0 && 0.0 <= q <= 100.0 && forall j | 0 <= j < |avg| :: avg[j] == v
    ensures Percentile(avg, q) == v
  {
    var a := SortReals(avg);
    assert |a| == |multiset(a)| == |multiset(avg)| == |avg|;
    forall i | 0 <= i < |a| ensures a[i] == v {
      assert a[i] in multiset(a);
      assert a[i] in multiset(avg);
      var k :| 0 <= k < |avg| && avg[k] == a[i];
    }
  }

  /** `%.1f` of a level, as tenths: the nearest tenth, ties rounded up. */
  function RoundTenths(x: real): (t: int)
    ensures t as real - 0.5 <= 10.0 * x < t as real + 0.5
  {
    (10.0 * x + 0.5).Floor
  }
}
