/** The Python 3 port `ent_decimal.py`, which computes with `decimal.Decimal`:
    `pearsonchisquare` over the Counter values, `correlation` with a true
    rotation of the data, and `monte_carlo` over whole groups of six bytes.
    Decimal rounding is not modelled: values are exact rationals. */
module EntDecimal {
  import opened Base
  import opened Counting
  import opened ChiSquare
  import opened Moments
  import opened MonteCarloPi

  /** `pearsonchisquare(counts)`: `np = sum(counts) / Decimal(256)` and the
      sum runs over the given counts. An empty list gives 0. A non-empty
      list adding up to 0 divides by a zero `Decimal` at its first count:
      `0/0` signals `InvalidOperation`, `c/0` with `c != 0` signals
      `DivisionByZero`. */
  function PearsonChiSquare(counts: seq<int>): (r: Result<real>)
    ensures counts == [] ==> r == Ok(0.0)
    ensures counts != [] ==> (r.Err? <==> Sum(counts) == 0)
    ensures r.Err? ==> r.error == (if counts[0] == 0 then InvalidOperation else DivisionByZero)
    ensures (forall i :: 0 <= i < |counts| ==> counts[i] >= 0) && r.Ok? ==> r.value >= 0.0
  {
    if counts == [] then Ok(0.0)
    else if Sum(counts) == 0 then
      Err(if counts[0] == 0 then InvalidOperation else DivisionByZero)
    else
      var e := Sum(counts) as real / 256.0;
      assert (forall i :: 0 <= i < |counts| ==> counts[i] >= 0) ==> Chi(counts, e) >= 0.0 by {
        if forall i :: 0 <= i < |counts| ==> counts[i] >= 0 {
          SumNonneg(counts);
          ChiZero(counts, e);
        }
      }
      Ok(Chi(counts, e))
  }

  /** The counts of a Counter are positive, so on the counts of any buffer
      the statistic never fails; for an empty buffer it is 0. */
  lemma CounterChiSquareDefined(d: seq<Byte>)
    ensures PearsonChiSquare(CounterValues(d)).Ok?
    ensures d == [] ==> PearsonChiSquare(CounterValues(d)) == Ok(0.0)
  {
    CounterValuesEmpty(d);
    CounterValuesSum(d);
  }

  /** `a[1:] + [a[0]]`: the data rotated one place to the left. */
  function Rotated(d: seq<Byte>): (b: seq<int>)
    requires d != []
    ensures |b| == |d|
    ensures forall i :: 0 <= i < |d| - 1 ==> b[i] == d[i + 1]
    ensures b[|d| - 1] == d[0]
  {
    d[1..] + [d[0]]
  }

  /** `correlation(d)`: `(n * t1 - t2) / (n * t3 - t2)` with `t1` the sum of
      the products of each byte with its cyclic successor; `IndexError` on
      empty data (`a[0]`), `ValueError` when all bytes are equal. The
      coefficient always lies in [-1, 1]. */
  function Correlation(d: seq<Byte>): (r: Result<real>)
    ensures d == [] ==> r == Err(IndexError)
    ensures d != [] ==> (r == Err(ValueError) <==> AllEqual(d))
    ensures r.Ok? <==> d != [] && !AllEqual(d)
    ensures r.Ok? ==> -1.0 <= r.value <= 1.0
    ensures r.Ok? ==> Spread(d) > 0
    ensures r.Ok? ==>
      r.value == (|d| * (Lag(d) + (d[|d| - 1] as int) * d[0]) - Sum(d) * Sum(d)) as real / Spread(d) as real
  {
    if d == [] then Err(IndexError)
    else
      var t1 := Dot(d, Rotated(d));
      var t2 := Sum(d) * Sum(d);
      var t3 := SumSq(d);
      var scc := |d| * t3 - t2;
      SpreadSign(d);
      RotatedSuccessors(d);
      if scc == 0 then Err(ValueError)
      else
        RotationSums(d);
        NumeratorBound(d, Rotated(d));
        QuotientBounds(|d| * t1 - t2, scc);
        Ok((|d| * t1 - t2) as real / scc as real)
  }

  /** `it.cycle([256**2, 256, 1])`: the weight of position `i`. */
  function Weight(i: nat): (w: int)
    ensures w == (if i % 3 == 0 then 65536 else if i % 3 == 1 then 256 else 1)
  {
    [65536, 256, 1][i % 3]
  }

  /** `i * j for i, j in zip(d, cycle(...))`: every byte times the weight
      of its position within its triple. */
  function Weighted(s: seq<Byte>): (w: seq<int>)
    ensures |w| == |s|
    ensures forall i :: 0 <= i < |s| ==> w[i] == s[i] * Weight(i)
  {
    seq(|s|, i requires 0 <= i < |s| => s[i] * Weight(i))
  }

  /** `[sum(j) for j in zip_longest(*[it] * 3)]`: the sums of consecutive
      groups of three. The input always has a multiple of six elements,
      so no group is padded. */
  function Groups(w: seq<int>): (g: seq<int>)
    requires |w| % 3 == 0
    ensures |g| == |w| / 3
    ensures forall i :: 0 <= i < |g| ==> g[i] == w[3 * i] + w[3 * i + 1] + w[3 * i + 2]
  {
    seq(|w| / 3, i requires 0 <= i < |w| / 3 => w[3 * i] + w[3 * i + 1] + w[3 * i + 2])
  }

  /** The coordinates of `monte_carlo`: the data cut to `len(d) // 6 * 6`
      bytes, weighted and summed by threes. */
  function Values(d: seq<Byte>): (v: seq<int>)
    ensures |v| == 2 * (|d| / 6)
  {
    var p := |d| / 6;
    assert p * 6 <= |d| && (p * 6) % 3 == 0 && (p * 6) / 3 == 2 * p;
    Groups(Weighted(d[..p * 6]))
  }

  /** Weighting and grouping by threes is the big-endian reading of every
      triple: the coordinates are the first `2 * (len(d) // 6)` triples of
      the data. */
  lemma ValuesAreTriples(d: seq<Byte>)
    ensures Values(d) == Triples(d)[..2 * (|d| / 6)]
  {
    var p := |d| / 6;
    var v := Values(d);
    forall i | 0 <= i < 2 * p
      ensures v[i] == Triples(d)[i]
    {
      GroupAt(d, p, i);
      TripleAt(d, i);
    }
  }

  /** Group `i` of the weighted prefix is the big-endian value of bytes
      `3i` to `3i + 2`. */
  lemma GroupAt(d: seq<Byte>, p: nat, i: nat)
    requires p == |d| / 6 && i < 2 * p
    ensures Values(d)[i] == BigEndian24(d[3 * i], d[3 * i + 1], d[3 * i + 2])
  {
    var w := Weighted(d[..p * 6]);
    assert Values(d)[i] == w[3 * i] + w[3 * i + 1] + w[3 * i + 2];
    assert Weight(3 * i) == 65536 && Weight(3 * i + 1) == 256 && Weight(3 * i + 2) == 1;
  }

  /** `monte_carlo(d)`: `4 * inmont / len(montex)`. Since the coordinates
      come in pairs, `len(montex)` is the number of points, `len(d) // 6`;
      fewer than six bytes give `Decimal(0) / 0`, `InvalidOperation`. */
  function MonteCarlo(d: seq<Byte>): (r: Result<real>)
    ensures r.Err? <==> |d| < 6
    ensures r.Err? ==> r.error == InvalidOperation
    ensures r.Ok? ==> 0.0 <= r.value <= 4.0
    ensures r.Ok? ==>
      r.value == (4 * Inside(Triples(d)[..2 * (|d| / 6)])) as real / (|d| / 6) as real
  {
    var values := Values(d);
    var montex := Xs(values);
    assert |montex| == |d| / 6;
    if |montex| == 0 then Err(InvalidOperation)
    else
      var inmont := Inside(values);
      EstimateBounds(inmont, |montex|);
      ValuesAreTriples(d);
      Ok((4 * inmont) as real / |montex| as real)
  }

  /** Every point has both coordinates: the x and y lists are equally
      long, one per six bytes. */
  lemma PointsArePaired(d: seq<Byte>)
    ensures |Xs(Values(d))| == |Ys(Values(d))| == |d| / 6
  {
  }
}
