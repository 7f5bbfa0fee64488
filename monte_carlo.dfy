/** The Monte Carlo estimate of pi shared by the ports: byte triples are read
    as big-endian 24-bit coordinates, consecutive coordinates are paired into
    points of the square [0, 2**24 - 1]**2, and four times the fraction of
    points inside the quarter circle of radius 2**24 - 1 approximates pi.
    Every intermediate is an integer below 2**53, so the doubles and
    Decimals of the source are exact and are modelled as `int`. */
module MonteCarloPi {
  import opened Base

  /** `256**3 - 1`, the largest coordinate. */
  const MAX_COORD: int := 16777215
  /** `(256.0**3 - 1)**2`, the squared radius of the quarter circle. */
  const RADIUS_SQ: int := 281474943156225

  lemma RadiusIsMaxCoordSquared()
    ensures RADIUS_SQ == MAX_COORD * MAX_COORD
  {
  }

  /** Python's extended slice `s[start::step]`, for the steps of 2 and 3
      the ports use. */
  function Stride<T>(s: seq<T>, start: nat, step: nat): (r: seq<T>)
    requires step == 2 || step == 3
    ensures |r| == if start < |s| then (|s| - start - 1) / step + 1 else 0
    ensures forall i :: 0 <= i < |r| ==> start + step * i < |s| && r[i] == s[start + step * i]
    decreases |s| - start
  {
    if start >= |s| then []
    else [s[start]] + Stride(s, start + step, step)
  }

  /** The big-endian value of three bytes: `a * 65536 + b * 256 + c`. */
  function BigEndian24(a: Byte, b: Byte, c: Byte): (v: int)
    ensures 0 <= v <= MAX_COORD
  {
    a * 65536 + b * 256 + c
  }

  /** The coordinates a buffer encodes: one per complete triple of bytes,
      trailing bytes that do not fill a triple being ignored. */
  function Triples(d: seq<Byte>): (v: seq<int>)
    ensures |v| == |d| / 3
    ensures forall i :: 0 <= i < |v| ==> 0 <= v[i] <= MAX_COORD
  {
    seq(|d| / 3, i requires 0 <= i < |d| / 3 => BigEndian24(d[3 * i], d[3 * i + 1], d[3 * i + 2]))
  }

  /** Coordinate `i` is read from bytes `3i`, `3i + 1` and `3i + 2`. */
  lemma TripleAt(d: seq<Byte>, i: nat)
    requires 3 * i + 3 <= |d|
    ensures Triples(d)[i] == BigEndian24(d[3 * i], d[3 * i + 1], d[3 * i + 2])
  {
  }

  /** `x * x + y * y <= (256.0**3 - 1)**2` */
  predicate InCircle(x: int, y: int)
  {
    x * x + y * y <= RADIUS_SQ
  }

  /** `sum(i * i + j * j <= R for i, j in zip(xs, ys))`: the points inside
      the circle, `zip` stopping at the shorter list. */
  function Hits(xs: seq<int>, ys: seq<int>): (k: nat)
    ensures k <= |xs| && k <= |ys|
  {
    if xs == [] || ys == [] then 0
    else (if InCircle(xs[0], ys[0]) then 1 else 0) + Hits(xs[1..], ys[1..])
  }

  /** `values[0::2]`: the x coordinates. */
  function Xs(values: seq<int>): (xs: seq<int>)
    ensures |xs| == (|values| + 1) / 2
  {
    Stride(values, 0, 2)
  }

  /** `values[1::2]`: the y coordinates. */
  function Ys(values: seq<int>): (ys: seq<int>)
    ensures |ys| == |values| / 2
  {
    Stride(values, 1, 2)
  }

  /** The points inside the circle among the pairs of consecutive
      coordinates. */
  function Inside(values: seq<int>): (k: nat)
    ensures k <= |values| / 2
  {
    Hits(Xs(values), Ys(values))
  }

  /** `4 * inmont / points` lies in [0, 4]. */
  lemma EstimateBounds(inmont: nat, points: nat)
    requires 0 < points && inmont <= points
    ensures 0.0 <= (4 * inmont) as real / points as real <= 4.0
  {
    var k, p := inmont as real, points as real;
    var q := (4 * inmont) as real / p;
    assert q * p == 4.0 * k;
  }

  /** `zip` ignores the x coordinates that have no y. */
  lemma {:induction false} HitsTruncate(xs: seq<int>, ys: seq<int>)
    requires |ys| <= |xs|
    ensures Hits(xs[..|ys|], ys) == Hits(xs, ys)
  {
    if ys != [] {
      assert xs[..|ys|][1..] == xs[1..][..|ys| - 1];
      HitsTruncate(xs[1..], ys[1..]);
    }
  }

  /** A trailing coordinate that pairs with nothing contributes no point:
      the points of a list are those of its longest even prefix. */
  lemma InsideOfWholePairs(values: seq<int>)
    ensures Inside(values[..2 * (|values| / 2)]) == Inside(values)
  {
    var k := |values| / 2;
    var w := values[..2 * k];
    assert Xs(w) == Xs(values)[..k];
    assert Ys(w) == Ys(values);
    HitsTruncate(Xs(values), Ys(values));
  }
}
