/** How the three ports relate on the same data: the statistic over a
    Counter against the one over the full 256-slot table, the two serial
    correlations, and the two Monte Carlo estimates. */
module Ports {
  import opened Base
  import opened Counting
  import opened Moments
  import opened MonteCarloPi
  import Ent
  import EntWithoutNumpy
  import EntDecimal

  /** On the counts of the same data, the Counter ports agree with each
      other and fall short of `ent.py` by the expected count once for
      every byte value that never occurs; on empty data `ent.py` divides
      by zero where the Counter ports return 0. */
  lemma CounterAgainstFullTable(d: seq<Byte>)
    ensures EntDecimal.PearsonChiSquare(CounterValues(d)) == EntWithoutNumpy.PearsonChiSquare(CounterValues(d))
    ensures d == [] ==> Ent.ChiOver256(|d|, Histogram(d)) == Err(ZeroDivisionError)
    ensures d == [] ==> EntWithoutNumpy.PearsonChiSquare(CounterValues(d)) == Ok(0.0)
    ensures d != [] ==> Ent.ChiOver256(|d|, Histogram(d)).Ok?
    ensures d != [] ==> EntWithoutNumpy.PearsonChiSquare(CounterValues(d)).Ok?
    ensures d != [] ==>
      EntWithoutNumpy.PearsonChiSquare(CounterValues(d)).value
        == Ent.ChiOver256(|d|, Histogram(d)).value - ZeroCount(Histogram(d)) as real * (|d| as real / 256.0)
  {
    Ent.ChiOfOwnCounts(d);
    EntWithoutNumpy.CounterChiSquare(d);
    EntDecimal.CounterChiSquareDefined(d);
    CounterValuesSum(d);
  }

  /** The two `correlation`s fail on the same data, and otherwise differ
      by the wrap-around product `n * d[-1] * d[0]` over the same
      denominator, which the zero padding of `ent_without_numpy.py` leaves
      out. */
  lemma CorrelationGap(d: seq<Byte>)
    ensures EntDecimal.Correlation(d).Err? <==> EntWithoutNumpy.Correlation(d).Err?
    ensures EntDecimal.Correlation(d).Ok? ==>
      EntDecimal.Correlation(d).value - EntWithoutNumpy.Correlation(d).value
        == (|d| * ((d[|d| - 1] as int) * d[0])) as real / Spread(d) as real
  {
    var dec, wn := EntDecimal.Correlation(d), EntWithoutNumpy.Correlation(d);
    if dec.Ok? {
      var n, s := |d|, Sum(d);
      var w := (d[|d| - 1] as int) * d[0];
      var a := (n * Lag(d) - s * s) as real;
      var b := (n * w) as real;
      var c := Spread(d) as real;
      assert dec.value == (a + b) / c by {
        NumeratorSplit(n, Lag(d), w, s);
      }
      assert wn.Ok? && wn.value == a / c;
      SplitQuotient(a, b, c);
    }
  }

  lemma NumeratorSplit(n: int, lag: int, w: int, s: int)
    ensures (n * (lag + w) - s * s) as real == (n * lag - s * s) as real + (n * w) as real
  {
    assert n * (lag + w) == n * lag + n * w;
  }

  lemma SplitQuotient(a: real, b: real, c: real)
    requires c != 0.0
    ensures (a + b) / c - a / c == b / c
  {
  }

  /** Both `monte_carlo`s count the same points inside the circle, those
      among the first `len(d) // 6` pairs of coordinates;
      `ent_without_numpy.py` divides their number by the number of x
      coordinates, `(len(d) // 3 + 1) // 2`, `ent_decimal.py` by the number
      of points, `len(d) // 6`. They agree when `len(d) // 3` is even. */
  lemma MonteCarloSamePoints(d: seq<Byte>)
    requires |d| >= 6
    ensures EntWithoutNumpy.MonteCarlo(d).Ok? && EntDecimal.MonteCarlo(d).Ok?
    ensures EntWithoutNumpy.MonteCarlo(d).value == (4 * Inside(Triples(d))) as real / ((|d| / 3 + 1) / 2) as real
    ensures EntDecimal.MonteCarlo(d).value == (4 * Inside(Triples(d))) as real / (|d| / 6) as real
    ensures (|d| / 3) % 2 == 0 ==> EntWithoutNumpy.MonteCarlo(d).value == EntDecimal.MonteCarlo(d).value
  {
    var t, p := Triples(d), |d| / 6;
    assert |t| / 2 == p && p > 0 by { PairCounts(|d|); }
    assert Inside(t[..2 * p]) == Inside(t) by { InsideOfWholePairs(t); }
    if (|d| / 3) % 2 == 0 {
      assert (|d| / 3 + 1) / 2 == p by { PairCounts(|d|); }
    }
  }

  /** With `n >= 6` bytes there is at least one point: `n // 6` of them
      from `n // 3` coordinates, and at least as many x coordinates,
      `(n // 3 + 1) // 2`, the same number when `n // 3` is even. */
  lemma PairCounts(n: nat)
    requires n >= 6
    ensures (n / 3) / 2 == n / 6 > 0
    ensures (n / 3 + 1) / 2 > 0
    ensures (n / 3) % 2 == 0 ==> (n / 3 + 1) / 2 == n / 6
  {
  }
}
