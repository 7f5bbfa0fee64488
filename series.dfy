/** The two series loops of `pochisq` (Hill and Pike, CACM Algorithm 299),
    shared by the ports in ent.py and ent_without_numpy.py, which differ only
    in whether the exponential is clamped. The transcendental functions are
    parameters: their numerics are not modelled. */
module Series {
  import opened Base

  /** `math.exp`, `math.log`, `math.sqrt` and the standard normal
      distribution function (`_poz` in ent.py, `NormalDist().cdf` in
      ent_without_numpy.py), left uninterpreted. */
  datatype Numerics = Numerics(
    exp: real -> real,
    log: real -> real,
    sqrt: real -> real,
    cdf: real -> real)

  /** The degrees-of-freedom argument: a Python `int`, or a value of any
      other type. */
  datatype Df = Int(n: int) | NotInt

  /** log(sqrt(pi)) */
  const LOG_SQRT_PI: real := 0.5723649429247000870717135
  /** 1 / sqrt(pi) */
  const I_SQRT_PI: real := 0.5641895835477562869480795
  /** The cutoff between the two series, and the clamp of `ex`. */
  const BIGX: real := 20.0

  /** How often `while z <= bound: ...; z += 1.0` runs when `z` starts at
      `z0`. */
  function Trips(z0: real, bound: real): (k: nat)
  {
    if z0 > bound then 0 else (bound - z0).Floor + 1
  }

  lemma TripsStep(z: real, bound: real)
    requires z <= bound
    ensures Trips(z, bound) == Trips(z + 1.0, bound) + 1
  {
    var f := (bound - z).Floor;
    assert f as real <= bound - z < f as real + 1.0;
    if z + 1.0 <= bound {
      assert (bound - (z + 1.0)).Floor == f - 1;
    }
  }

  /** The loop bound is `x = 0.5 * (df - 1.0)` and `z` starts at 1 for even
      `df` and at 0.5 for odd `df`: the loop runs `df/2 - 1` times for even
      `df` and `(df - 1)/2` times for odd `df`. */
  lemma PochisqTrips(df: int)
    requires df > 2
    ensures df % 2 == 0 ==> Trips(1.0, 0.5 * (df as real - 1.0)) == df / 2 - 1
    ensures df % 2 == 1 ==> Trips(0.5, 0.5 * (df as real - 1.0)) == (df - 1) / 2
  {
    var h := df / 2;
    var bound := 0.5 * (df as real - 1.0);
    if df % 2 == 0 {
      assert df == 2 * h;
      assert bound - 1.0 == (h - 2) as real + 0.5;
      assert (bound - 1.0).Floor == h - 2;
    } else {
      assert df == 2 * h + 1;
      assert bound - 0.5 == (h - 1) as real + 0.5;
      assert (bound - 0.5).Floor == h - 1;
    }
  }

  /** The value of `e` after `k` rounds of `e *= a / z`, `z` running from
      `z0` up by one. */
  function SmallTerm(a: real, e0: real, z0: real, k: nat): real
    requires z0 > 0.0
  {
    if k == 0 then e0 else SmallTerm(a, e0, z0, k - 1) * (a / (z0 + (k - 1) as real))
  }

  /** The value of `c` after `k` rounds of `c += e`: the terms 1 to `k`. */
  function SmallSum(a: real, e0: real, z0: real, k: nat): real
    requires z0 > 0.0
  {
    if k == 0 then 0.0 else SmallSum(a, e0, z0, k - 1) + SmallTerm(a, e0, z0, k)
  }

  /** The loop of the `a <= BIGX` branch:
      `while z <= x: e *= a / z; c += e; z += 1.0`, with `c` starting at 0. */
  method SmallArgLoop(a: real, e0: real, z0: real, bound: real) returns (c: real)
    requires z0 > 0.0
    ensures c == SmallSum(a, e0, z0, Trips(z0, bound))
  {
    var e, z := e0, z0;
    c := 0.0;
    ghost var k: nat := 0;
    while z <= bound
      invariant z == z0 + k as real
      invariant k + Trips(z, bound) == Trips(z0, bound)
      invariant e == SmallTerm(a, e0, z0, k)
      invariant c == SmallSum(a, e0, z0, k)
      decreases Trips(z, bound)
    {
      TripsStep(z, bound);
      e := e * (a / z);
      c := c + e;
      z := z + 1.0;
      k := k + 1;
    }
  }

  /** The value of `e` after `k` rounds of `e += log(z)`. */
  function LogSum(log: real -> real, e0: real, z0: real, k: nat): real
  {
    if k == 0 then e0 else LogSum(log, e0, z0, k - 1) + log(z0 + (k - 1) as real)
  }

  /** What `k` rounds of `s += exp(c * z - a - e)` add to `s`. */
  function LargeSum(exp: real -> real, log: real -> real, a: real, c: real, e0: real, z0: real, k: nat): real
  {
    if k == 0 then 0.0
    else
      LargeSum(exp, log, a, c, e0, z0, k - 1)
      + exp(c * (z0 + (k - 1) as real) - a - LogSum(log, e0, z0, k))
  }

  /** The loop of the `a > BIGX` branch:
      `while z <= x: e += log(z); s += exp(c * z - a - e); z += 1.0`. */
  method LargeArgLoop(exp: real -> real, log: real -> real, a: real, c: real, s0: real, e0: real, z0: real, bound: real)
    returns (s: real)
    ensures s == s0 + LargeSum(exp, log, a, c, e0, z0, Trips(z0, bound))
  {
    var e, z := e0, z0;
    s := s0;
    ghost var k: nat := 0;
    while z <= bound
      invariant z == z0 + k as real
      invariant k + Trips(z, bound) == Trips(z0, bound)
      invariant e == LogSum(log, e0, z0, k)
      invariant s == s0 + LargeSum(exp, log, a, c, e0, z0, k)
      decreases Trips(z, bound)
    {
      assert Trips(z + 1.0, bound) + 1 == Trips(z, bound) by { TripsStep(z, bound); }
      assert e + log(z) == LogSum(log, e0, z0, k + 1) by { assert (k + 1) - 1 == k; }
      e := e + log(z);
      var t := c * z - a - e;
      assert s + exp(t) == s0 + LargeSum(exp, log, a, c, e0, z0, k + 1) by {
        LargeSumStep(exp, log, a, c, e0, z0, k, z);
      }
      s := s + exp(t);
      z := z + 1.0;
      k := k + 1;
    }
  }

  lemma LargeSumStep(exp: real -> real, log: real -> real, a: real, c: real, e0: real, z0: real, k: nat, z: real)
    requires z == z0 + k as real
    ensures LargeSum(exp, log, a, c, e0, z0, k + 1)
         == LargeSum(exp, log, a, c, e0, z0, k) + exp(c * z - a - LogSum(log, e0, z0, k + 1))
  {
    var k1: nat := k + 1;
    assert k1 - 1 == k;
    var x := c * (z0 + (k1 - 1) as real) - a - LogSum(log, e0, z0, k1);
    assert x == c * z - a - LogSum(log, e0, z0, k + 1);
    assert LargeSum(exp, log, a, c, e0, z0, k1) == LargeSum(exp, log, a, c, e0, z0, k) + exp(x);
  }

  function Pow(a: real, k: nat): real
  {
    if k == 0 then 1.0 else Pow(a, k - 1) * a
  }

  function Factorial(k: nat): (f: nat)
    ensures f > 0
  {
    if k == 0 then 1 else Factorial(k - 1) * k
  }

  /** The exponential series truncated after the power `m`:
      the sum of `a**k / k!` for `k` from 0 to `m`. */
  function TruncatedExp(a: real, m: nat): real
  {
    if m == 0 then 1.0 else TruncatedExp(a, m - 1) + Pow(a, m) / Factorial(m) as real
  }

  /** Starting from `e = 1` and `z = 1`, the `k`-th term is `a**k / k!`. */
  lemma {:induction false} EvenTerm(a: real, k: nat)
    ensures SmallTerm(a, 1.0, 1.0, k) == Pow(a, k) / Factorial(k) as real
  {
    if k > 0 {
      EvenTerm(a, k - 1);
      EvenTermStep(a, k);
    }
  }

  /** One round of `e = e * a / z` turns `a**(k-1) / (k-1)!` into
      `a**k / k!`. */
  lemma EvenTermStep(a: real, k: nat)
    requires k > 0
    requires SmallTerm(a, 1.0, 1.0, k - 1) == Pow(a, k - 1) / Factorial(k - 1) as real
    ensures SmallTerm(a, 1.0, 1.0, k) == Pow(a, k) / Factorial(k) as real
  {
    var t, r := SmallTerm(a, 1.0, 1.0, k - 1), k as real;
    SmallTermStep(a, k);
    FactorialStep(k);
    PowStep(a, k);
    QuotientStep(t, Pow(a, k - 1), Factorial(k - 1) as real, a, r, Pow(a, k), Factorial(k) as real);
  }

  lemma SmallTermStep(a: real, k: nat)
    requires k > 0
    ensures SmallTerm(a, 1.0, 1.0, k) == SmallTerm(a, 1.0, 1.0, k - 1) * (a / k as real)
  {
    assert 1.0 + (k - 1) as real == k as real;
  }

  lemma FactorialStep(k: nat)
    requires k > 0
    ensures Factorial(k) as real == Factorial(k - 1) as real * k as real
  {
    RealProduct(Factorial(k - 1), k);
  }

  lemma PowStep(a: real, k: nat)
    requires k > 0
    ensures Pow(a, k) == Pow(a, k - 1) * a
  {
  }

  lemma RealProduct(x: int, y: int)
    ensures (x * y) as real == x as real * y as real
  {
  }

  lemma QuotientStep(t: real, p: real, f: real, a: real, r: real, num: real, den: real)
    requires f > 0.0 && r > 0.0 && t == p / f && num == p * a && den == f * r
    ensures t * (a / r) == num / den
  {
  }

  /** In the even branch the loop sums the terms 1 to `m` of the exponential
      series; with the initial `s = exp(-a)` added as the term 0, the result
      `c * y + s` is `exp(-a)` times the series truncated after `a**m / m!`. */
  lemma {:induction false} EvenSeries(a: real, m: nat)
    ensures 1.0 + SmallSum(a, 1.0, 1.0, m) == TruncatedExp(a, m)
  {
    if m > 0 {
      EvenSeries(a, m - 1);
      EvenTerm(a, m);
    }
  }

  /** `s` before the loops: `y = exp(-a)` for even `df`, and
      `2 * cdf(-sqrt(x))` for odd `df`. */
  function Start(x: real, n: int, exp: real -> real, m: Numerics): real
  {
    if n % 2 == 0 then exp(-0.5 * x) else 2.0 * m.cdf(-m.sqrt(x))
  }

  /** The result of `pochisq` for `df = n > 2`, with the loops written as
      the sums they accumulate over their closed-form trip counts. `exp` is
      the exponential the port uses for `y` and for the large-argument
      terms; `eager` says whether `1/sqrt(pi)/sqrt(a)` is computed (and
      may divide by zero) for even `df` too. */
  function SeriesResult(x: real, n: int, exp: real -> real, m: Numerics, eager: bool): Result<real>
    requires n > 2
  {
    var a := 0.5 * x;
    var even := n % 2 == 0;
    var terms := if even then n / 2 - 1 else (n - 1) / 2;
    var z0 := if even then 1.0 else 0.5;
    if a > BIGX then
      Ok(Start(x, n, exp, m) + LargeSum(exp, m.log, a, m.log(a), if even then 0.0 else LOG_SQRT_PI, z0, terms))
    else if (eager || !even) && m.sqrt(a) == 0.0 then Err(ZeroDivisionError)
    else
      Ok(SmallSum(a, if even then 1.0 else I_SQRT_PI / m.sqrt(a), z0, terms) * exp(-a) + Start(x, n, exp, m))
  }

  /** The part of `pochisq` after `s` is set, for `df = k > 2`: `x` becomes
      the loop bound `0.5 * (df - 1.0)`, `z` starts at 1 for even and at
      0.5 for odd `df`, and one of the two series runs. */
  method PochisqLoops(x: real, k: int, exp: real -> real, m: Numerics, eager: bool, ev: bool, y: real, s0: real)
    returns (r: Result<real>)
    requires k > 2 && (ev <==> k % 2 == 0)
    requires y == exp(-0.5 * x) && s0 == Start(x, k, exp, m)
    ensures r == SeriesResult(x, k, exp, m, eager)
  {
    var a := 0.5 * x;
    var bound := 0.5 * (k as real - 1.0);
    var z := if ev then 1.0 else 0.5;
    assert Trips(z, bound) == (if ev then k / 2 - 1 else (k - 1) / 2) by {
      PochisqTrips(k);
    }
    if a > BIGX {
      r := LargeArgument(x, k, exp, m, eager, ev, s0, z, bound);
    } else {
      r := SmallArgument(x, k, exp, m, eager, ev, y, s0, z, bound);
    }
  }

  /** `a > BIGX`: `e` starts at 0 for even and at `log(sqrt(pi))` for odd
      `df`, and `s` gathers the terms `exp(c * z - a - e)`. */
  method LargeArgument(x: real, k: int, exp: real -> real, m: Numerics, eager: bool, ev: bool, s0: real, z: real, bound: real)
    returns (r: Result<real>)
    requires k > 2 && 0.5 * x > BIGX && s0 == Start(x, k, exp, m) && (ev <==> k % 2 == 0)
    requires z == (if ev then 1.0 else 0.5) && Trips(z, bound) == (if ev then k / 2 - 1 else (k - 1) / 2)
    ensures r == SeriesResult(x, k, exp, m, eager)
  {
    var a := 0.5 * x;
    var e := if ev then 0.0 else LOG_SQRT_PI;
    var c := m.log(a);
    var s := LargeArgLoop(exp, m.log, a, c, s0, e, z, bound);
    return Ok(s);
  }

  /** `a <= BIGX`: `e` starts at 1 for even and at `1/sqrt(pi)/sqrt(a)` for
      odd `df`, `c` gathers the terms, and the result is `c * y + s`. */
  method SmallArgument(x: real, k: int, exp: real -> real, m: Numerics, eager: bool, ev: bool, y: real, s0: real, z: real, bound: real)
    returns (r: Result<real>)
    requires k > 2 && 0.5 * x <= BIGX && y == exp(-0.5 * x) && s0 == Start(x, k, exp, m) && (ev <==> k % 2 == 0)
    requires z == (if ev then 1.0 else 0.5) && Trips(z, bound) == (if ev then k / 2 - 1 else (k - 1) / 2)
    ensures r == SeriesResult(x, k, exp, m, eager)
  {
    var a := 0.5 * x;
    var e: real;
    if eager || !ev {
      var root := m.sqrt(a);
      if root == 0.0 {
        return Err(ZeroDivisionError);
      }
      e := if ev then 1.0 else I_SQRT_PI / root;
    } else {
      e := 1.0;
    }
    var c := SmallArgLoop(a, e, z, bound);
    ghost var terms := Trips(z, bound);
    ProductOfEquals(c, y, SmallSum(a, e, z, terms), exp(-a));
    assert SeriesResult(x, k, exp, m, eager).Ok?;
    assert c * y + s0 == SeriesResult(x, k, exp, m, eager).value;
    return Ok(c * y + s0);
  }

  lemma ProductOfEquals(u: real, v: real, c: real, y: real)
    requires u == c && v == y
    ensures u * v == c * y
  {
  }

  lemma Distribute(c: real, y: real)
    ensures c * y + y == y * (1.0 + c)
  {
  }

  /** For even `df = n > 2` and `a = x/2 <= BIGX` (and the division by
      `sqrt(a)` not failing) the result is `y = exp(-a)` times the
      exponential series of `a` truncated after the power `n/2 - 1`. */
  lemma EvenSmallSeries(x: real, n: int, exp: real -> real, m: Numerics, eager: bool, y: real)
    requires n > 2 && n % 2 == 0 && 0.5 * x <= BIGX && !(eager && m.sqrt(0.5 * x) == 0.0)
    requires exp(-0.5 * x) == y
    ensures SeriesResult(x, n, exp, m, eager).Ok?
    ensures SeriesResult(x, n, exp, m, eager).value == y * TruncatedExp(0.5 * x, n / 2 - 1)
  {
    var a := 0.5 * x;
    var c := SmallSum(a, 1.0, 1.0, n / 2 - 1);
    assert -0.5 * x == -a;
    assert SeriesResult(x, n, exp, m, eager).Ok?;
    assert SeriesResult(x, n, exp, m, eager).value == c * y + y;
    EvenSeries(a, n / 2 - 1);
    Distribute(c, y);
    ProductOfEquals(y, 1.0 + c, y, TruncatedExp(0.5 * x, n / 2 - 1));
    assert c * y + y == y * TruncatedExp(0.5 * x, n / 2 - 1);
  }
}
