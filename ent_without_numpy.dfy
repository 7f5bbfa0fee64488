/** The Python 3 port `ent_without_numpy.py`: `pearsonchisquare` over the
    values of a `collections.Counter`, `correlation` with its zero-padded
    successor sequence, `monte_carlo` over slices of the data, and
    `pochisq` with an unclamped exponential. */
module EntWithoutNumpy {
  import opened Base
  import opened Counting
  import opened ChiSquare
  import opened Moments
  import opened MonteCarloPi
  import opened Series

  /** `pearsonchisquare(counts)`: the expected count is `sum(counts)/256`
      and the sum runs over the given counts only. An empty list gives the
      empty `sum`, 0; a non-empty list adding up to 0 divides by zero. */
  function PearsonChiSquare(counts: seq<int>): (r: Result<real>)
    ensures counts == [] ==> r == Ok(0.0)
    ensures counts != [] ==> (r.Err? <==> Sum(counts) == 0)
    ensures r.Err? ==> r.error == ZeroDivisionError
    ensures (forall i :: 0 <= i < |counts| ==> counts[i] >= 0) && r.Ok? ==> r.value >= 0.0
  {
    if counts == [] then Ok(0.0)
    else if Sum(counts) == 0 then Err(ZeroDivisionError)
    else
      var e := Sum(counts) as real / 256.0;
      assert (forall i :: 0 <= i < |counts| ==> counts[i] >= 0) ==> Chi(counts, e) >= 0.0 by {
        if forall i :: 0 <= i < |counts| ==> counts[i] >= 0 {
          SumNonneg(counts);
          ChiZero(counts, e);
        }
      }
      Ok(Chi(counts, e))
  }

  /** On the Counter of a buffer, the statistic is 0 for an empty buffer;
      otherwise it is the full 256-slot statistic with the expected count
      `len(d)/256` less that expected count once for every byte value that
      does not occur. */
  lemma CounterChiSquare(d: seq<Byte>)
    ensures d == [] ==> PearsonChiSquare(CounterValues(d)) == Ok(0.0)
    ensures d != [] ==> PearsonChiSquare(CounterValues(d)).Ok?
    ensures d != [] ==>
      var e := |d| as real / 256.0;
      PearsonChiSquare(CounterValues(d)).value == Chi(Histogram(d), e) - ZeroCount(Histogram(d)) as real * e
  {
    if d == [] {
      assert CounterValues(d) == [] by { CounterValuesEmpty(d); }
    } else {
      var h, cv := Histogram(d), CounterValues(d);
      var e := |d| as real / 256.0;
      assert cv != [] && Sum(cv) == |d| by {
        CounterValuesEmpty(d);
        CounterValuesSum(d);
      }
      var r := PearsonChiSquare(cv);
      assert r.Ok? && r.value == Chi(cv, e);
      assert Chi(cv, e) == Chi(h, e) - ZeroCount(h) as real * e by {
        assert cv == Positives(h);
        ChiPositives(h, e);
      }
    }
  }

  /** `d[1:] + bytes(d[0])`: `bytes(k)` is `k` zero bytes, so the first
      byte is not rotated to the end but replaced by `d[0]` zeros. */
  function PaddedSuccessors(d: seq<Byte>): (b: seq<int>)
    requires d != []
    ensures |b| == |d| - 1 + d[0]
  {
    d[1..] + Zeros(d[0])
  }

  /** `correlation(d)`: `(n * t1 - t2) / (n * t3 - t2)` with
      `t1 = sum(i * j for i, j in zip(d, b))`, `t2 = sum(d)**2` and
      `t3 = sum(j * j for j in d)`; `ValueError` when the denominator is
      zero, `IndexError` on empty data. Because of the zero padding, `t1`
      only has the products of neighbours, never `d[-1] * d[0]`. */
  function Correlation(d: seq<Byte>): (r: Result<real>)
    ensures d == [] ==> r == Err(IndexError)
    ensures d != [] ==> (r == Err(ValueError) <==> AllEqual(d))
    ensures r.Ok? <==> d != [] && !AllEqual(d)
    ensures r.Ok? ==> Spread(d) > 0
    ensures r.Ok? ==> r.value == (|d| * Lag(d) - Sum(d) * Sum(d)) as real / Spread(d) as real
  {
    if d == [] then Err(IndexError)
    else
      var t1 := Dot(d, PaddedSuccessors(d));
      var t2 := Sum(d) * Sum(d);
      var t3 := SumSq(d);
      var scc := |d| * t3 - t2;
      SpreadSign(d);
      ZeroPaddedSuccessors(d, d[0]);
      if scc == 0 then Err(ValueError)
      else Ok((|d| * t1 - t2) as real / scc as real)
  }

  /** The missing wrap-around product can take the coefficient outside
      [-1, 1]: for the two bytes 2, 1 it is -5. */
  lemma CorrelationOutOfRange()
    ensures Correlation([2, 1]) == Ok(-5.0)
  {
    var d: seq<Byte> := [2, 1];
    assert PaddedSuccessors(d) == [1, 0, 0];
    assert Dot(d, [1, 0, 0]) == 2;
    assert Sum(d) == 3 && SumSq(d) == 5;
  }

  /** `zip(xs, ys, zs)` of three byte sequences, each triple packed as
      `a * 65536.0 + b * 256.0 + c * 1.0`. */
  function Pack(xs: seq<Byte>, ys: seq<Byte>, zs: seq<Byte>): (v: seq<int>)
    ensures |v| <= |xs| && |v| <= |ys| && |v| <= |zs|
    ensures |v| == |xs| || |v| == |ys| || |v| == |zs|
    ensures forall i :: 0 <= i < |v| ==> v[i] == BigEndian24(xs[i], ys[i], zs[i])
  {
    var m := if |xs| <= |ys| && |xs| <= |zs| then |xs| else if |ys| <= |zs| then |ys| else |zs|;
    seq(m, i requires 0 <= i < m => BigEndian24(xs[i], ys[i], zs[i]))
  }

  /** `values` of `monte_carlo`: one coordinate per complete triple of
      bytes, one or two trailing bytes being ignored. */
  function Values(d: seq<Byte>): (v: seq<int>)
    ensures v == Triples(d)
  {
    var xs, ys, zs := Stride(d, 0, 3), Stride(d, 1, 3), Stride(d, 2, 3);
    assert |zs| == |d| / 3 && |xs| >= |zs| && |ys| >= |zs|;
    Pack(xs, ys, zs)
  }

  /** `monte_carlo(d)`: `4 * inmont / len(montex)`, where `montex` is
      every other coordinate starting with the first. `len(montex)` is
      `ceil(floor(n/3)/2)`, so an odd number of coordinates leaves one x
      without a y that still counts in the denominator; fewer than 3 bytes
      divide by zero. */
  function MonteCarlo(d: seq<Byte>): (r: Result<real>)
    ensures r.Err? <==> |d| < 3
    ensures r.Err? ==> r.error == ZeroDivisionError
    ensures r.Ok? ==> 0.0 <= r.value <= 4.0
    ensures r.Ok? ==> r.value == (4 * Inside(Triples(d))) as real / ((|d| / 3 + 1) / 2) as real
  {
    var values := Values(d);
    var montex := Xs(values);
    if |montex| == 0 then Err(ZeroDivisionError)
    else
      var inmont := Inside(values);
      EstimateBounds(inmont, |montex|);
      Ok((4 * inmont) as real / |montex| as real)
  }

  /** Nine bytes make three coordinates: one point and an unpaired x that
      still counts as a point. The estimate is at most 2, and exactly 2
      when the one point lies inside the circle. */
  lemma MonteCarloUnpairedX(d: seq<Byte>)
    requires |d| == 9
    ensures MonteCarlo(d).Ok? && MonteCarlo(d).value <= 2.0
    ensures InCircle(Triples(d)[0], Triples(d)[1]) ==> MonteCarlo(d).value == 2.0
  {
    var values := Triples(d);
    var k := Inside(values);
    assert k == if InCircle(values[0], values[1]) then 1 else 0 by {
      InsideOfThree(values);
    }
    assert MonteCarlo(d).Ok? && MonteCarlo(d).value == (4 * k) as real / 2 as real by {
      assert (|d| / 3 + 1) / 2 == 2;
    }
    Halve(4 * k);
  }

  lemma Halve(n: int)
    ensures n as real / 2 as real == 0.5 * n as real
  {
  }

  /** Three coordinates make one point: `zip` pairs the first two and
      drops the third. */
  lemma InsideOfThree(values: seq<int>)
    requires |values| == 3
    ensures Inside(values) == if InCircle(values[0], values[1]) then 1 else 0
  {
    var xs, ys := Xs(values), Ys(values);
    assert |xs| == 2 && |ys| == 1;
    assert Hits(xs[1..], ys[1..]) == 0;
  }

  /** Nine zero bytes estimate pi as 2. */
  lemma NineZeroBytes(d: seq<Byte>)
    requires |d| == 9 && forall i :: 0 <= i < 9 ==> d[i] == 0
    ensures MonteCarlo(d) == Ok(2.0)
  {
    ZeroPoint(d);
    MonteCarloUnpairedX(d);
  }

  /** Zero bytes encode the point (0, 0), which lies in the circle. */
  lemma ZeroPoint(d: seq<Byte>)
    requires 6 <= |d| && forall i :: 0 <= i < 6 ==> d[i] == 0
    ensures InCircle(Triples(d)[0], Triples(d)[1])
  {
    ZeroCoordinate(d, 0);
    ZeroCoordinate(d, 1);
    OriginInCircle();
  }

  /** Three zero bytes encode the coordinate 0. */
  lemma ZeroCoordinate(d: seq<Byte>, i: nat)
    requires 3 * i + 3 <= |d| && d[3 * i] == 0 && d[3 * i + 1] == 0 && d[3 * i + 2] == 0
    ensures Triples(d)[i] == 0
  {
    TripleAt(d, i);
  }

  lemma OriginInCircle()
    ensures InCircle(0, 0)
  {
  }

  /** What `pochisq(x, df)` returns or raises. `y` is assigned only when
      `df > 1`, but it is read only for even `df`, and `1/sqrt(pi)/sqrt(a)`
      only for odd `df`: `df == 1` gives `2 * cdf(-sqrt(x))`. */
  function Probability(x: real, df: Df, m: Numerics): Result<real>
  {
    if df.NotInt? then Err(ValueError)
    else if x <= 0.0 || df.n < 1 then Ok(1.0)
    else if df.n <= 2 then Ok(Start(x, df.n, m.exp, m))
    else SeriesResult(x, df.n, m.exp, m, false)
  }

  /** `pochisq(x, df)`, its two series loops run step by step with the
      unclamped `math.exp`. */
  method Pochisq(x: real, df: Df, m: Numerics) returns (r: Result<real>)
    ensures r == Probability(x, df, m)
  {
    if df.NotInt? {
      return Err(ValueError);
    }
    var k := df.n;
    if x <= 0.0 || k < 1 {
      return Ok(1.0);
    }
    var a := 0.5 * x;
    var even := k % 2 == 0;
    var y: Option<real> := None;
    if k > 1 {
      y := Some(m.exp(-a));
    }
    assert even ==> y.Some?;
    var s := if even then y.value else 2.0 * m.cdf(-m.sqrt(x));
    if k > 2 {
      r := PochisqLoops(x, k, m.exp, m, false, even, y.value, s);
      return;
    }
    return Ok(s);
  }

  /** The guard: a non-int `df` raises `ValueError`, a non-positive `x`
      or a `df` below 1 gives 1.0, and `df == 1` does not fail. Past the
      guard the only failure is the division by `sqrt(x/2)` for odd `df`. */
  lemma ProbabilityGuard(x: real, df: Df, m: Numerics)
    ensures df.NotInt? ==> Probability(x, df, m) == Err(ValueError)
    ensures df.Int? && (x <= 0.0 || df.n < 1) ==> Probability(x, df, m) == Ok(1.0)
    ensures df == Int(1) && x > 0.0 ==> Probability(x, df, m) == Ok(2.0 * m.cdf(-m.sqrt(x)))
    ensures df == Int(2) && x > 0.0 ==> Probability(x, df, m) == Ok(m.exp(-0.5 * x))
    ensures df.Int? && x > 0.0 && Probability(x, df, m).Err? ==>
      Probability(x, df, m) == Err(ZeroDivisionError) && df.n > 2 && df.n % 2 == 1
      && 0.5 * x <= BIGX && m.sqrt(0.5 * x) == 0.0
  {
  }

  /** For even `df > 2` and `a = x/2 <= BIGX` the result is `exp(-a)` times
      the exponential series of `a` truncated after the power `df/2 - 1`,
      whatever `sqrt` returns. */
  lemma ProbabilityEvenSmall(x: real, n: int, m: Numerics)
    requires n > 2 && n % 2 == 0 && 0.0 < x && 0.5 * x <= BIGX
    ensures Probability(x, Int(n), m).Ok?
    ensures Probability(x, Int(n), m).value == m.exp(-0.5 * x) * TruncatedExp(0.5 * x, n / 2 - 1)
  {
    EvenSmallSeries(x, n, m.exp, m, false, m.exp(-0.5 * x));
  }
}
