/** The Python 2 port `ent.py`: the byte-counting loop of `readdata`,
    `pearsonchisquare` over a full 256-slot table, and `pochisq` with its
    clamped exponential `ex`. */
module Ent {
  import opened Base
  import opened Counting
  import opened ChiSquare
  import opened Series

  /** The counting half of `readdata`: `counts = [0]*256`, then
      `counts[b] += 1` for every byte of `ba`. The table is built in place
      in a 256-slot array. */
  method CountBytes(ba: seq<Byte>) returns (counts: seq<int>)
    ensures counts == Histogram(ba)
    ensures |counts| == 256 && Sum(counts) == |ba|
  {
    var table := new int[256](_ => 0);
    assert table[..] == Histogram(ba[..0]);
    for i := 0 to |ba|
      invariant table[..] == Histogram(ba[..i])
    {
      assert ba[..i + 1] == ba[..i] + [ba[i]];
      HistogramAppend(ba[..i], ba[i]);
      table[ba[i]] := table[ba[i]] + 1;
    }
    assert ba[..|ba|] == ba;
    HistogramSum(ba);
    counts := table[..];
  }

  /** `sum([(counts[b] - np)**2/np for b in range(256)])` with
      `np = n/256.0`, `n` being the length of the data. The comprehension
      reads `counts[0]` before it first divides, and fails at the first
      slot `counts` does not have. */
  function ChiOver256(n: nat, counts: seq<int>): (r: Result<real>)
    ensures counts == [] ==> r == Err(IndexError)
    ensures counts != [] && n == 0 ==> r == Err(ZeroDivisionError)
    ensures 0 < |counts| < 256 && n > 0 ==> r == Err(IndexError)
    ensures r.Ok? <==> n > 0 && |counts| >= 256
    ensures r.Ok? ==> r.value >= 0.0
    ensures r.Ok? ==> (r.value == 0.0 <==> forall b :: 0 <= b < 256 ==> counts[b] as real == n as real / 256.0)
    ensures r == Ok(0.0) ==> n % 256 == 0
  {
    if counts == [] then Err(IndexError)
    else if n == 0 then Err(ZeroDivisionError)
    else if |counts| < 256 then Err(IndexError)
    else
      var e := n as real / 256.0;
      var table := counts[..256];
      ChiZero(table, e);
      assert forall b :: 0 <= b < 256 ==> table[b] == counts[b];
      assert Chi(table, e) == 0.0 ==> n % 256 == 0 by {
        if Chi(table, e) == 0.0 {
          WholeExpected(counts[0], n);
        }
      }
      Ok(Chi(table, e))
  }

  /** A count equal to `n/256` makes `n` a multiple of 256. */
  lemma WholeExpected(c: int, n: nat)
    requires c as real == n as real / 256.0
    ensures n == 256 * c
  {
    assert (256 * c) as real == 256.0 * (c as real);
  }

  /** `pearsonchisquare(d, counts)`: the expected count is always
      `len(d)/256`; when `counts` is `None` or empty the table is recounted
      from `d` by the loop of `readdata`. */
  method PearsonChiSquare(d: seq<Byte>, counts: Option<seq<int>>) returns (r: Result<real>)
    ensures (counts.None? || counts.value == []) ==> r == ChiOver256(|d|, Histogram(d))
    ensures (counts.Some? && counts.value != []) ==> r == ChiOver256(|d|, counts.value)
  {
    var table: seq<int>;
    if counts.None? || counts.value == [] {
      table := CountBytes(d);
    } else {
      table := counts.value;
    }
    r := ChiOver256(|d|, table);
  }

  /** On its own table the statistic divides by zero exactly for empty
      data; otherwise it is defined, with the expected count `len(d)/256`
      against counts that add up to `len(d)`. */
  lemma ChiOfOwnCounts(d: seq<Byte>)
    ensures d == [] <==> ChiOver256(|d|, Histogram(d)) == Err(ZeroDivisionError)
    ensures d != [] ==> ChiOver256(|d|, Histogram(d)) == Ok(Chi(Histogram(d), |d| as real / 256.0))
  {
    assert Histogram(d)[..256] == Histogram(d);
  }

  /** `n` copies of one byte value: `(n - n/256)**2/(n/256) + 255*(n/256)`,
      which is `255*n`. */
  lemma ChiConstantBuffer(v: Byte, n: nat)
    requires n > 0
    ensures ChiOver256(n, Histogram(seq(n, _ => v))).Ok?
    ensures ChiOver256(n, Histogram(seq(n, _ => v))).value == 255.0 * n as real
  {
    var h := Histogram(seq(n, _ => v));
    assert h == Zeros(256)[v := n] by { HistogramConstant(v, n); }
    assert Chi(h, n as real / 256.0) == 255.0 * n as real by { ChiSingleSlot(v, n); }
    assert h[..256] == h;
  }

  /** `ex(x)`: `exp(x)`, or 0.0 below `-BIGX`. */
  function Ex(exp: real -> real, t: real): real
  {
    if t < -BIGX then 0.0 else exp(t)
  }

  /** `ex` as a function value, the exponential the large-argument loop
      calls. */
  function Clamped(exp: real -> real): real -> real
  {
    t => Ex(exp, t)
  }

  /** What `pochisq(x, df)` returns or raises. Every exponential goes
      through `ex`. `y` is assigned only when `df > 1`, and the helper
      `even(t, f)` receives both of its arguments evaluated, so with
      `df == 1` the read of `y` fails, and `1/sqrt(pi)/sqrt(a)` is computed
      for even `df` as well. */
  function Probability(x: real, df: Df, m: Numerics): Result<real>
  {
    if df.NotInt? then Err(ValueError)
    else if x <= 0.0 || df.n < 1 then Ok(1.0)
    else if df.n == 1 then Err(UnboundLocalError)
    else if df.n == 2 then Ok(Start(x, 2, Clamped(m.exp), m))
    else SeriesResult(x, df.n, Clamped(m.exp), m, true)
  }

  /** `pochisq(x, df)`, its two series loops run step by step. Parity is
      Python 2's `2 * (df / 2) == df`, with floor division. */
  method Pochisq(x: real, df: Df, m: Numerics) returns (r: Result<real>)
    ensures r == Probability(x, df, m)
  {
    if df.NotInt? {
      return Err(ValueError);
    }
    var k := df.n;
    if x <= 0.0 || k < 1 {
      return Ok(1.0);
    }
    var a := 0.5 * x;
    var ev := 2 * (k / 2) == k;
    assert ev <==> k % 2 == 0;
    var y: Option<real> := None;
    if k > 1 {
      y := Some(Ex(m.exp, -a));
    }
    var odd := 2.0 * m.cdf(-m.sqrt(x));
    if y.None? {
      return Err(UnboundLocalError);
    }
    var s := if ev then y.value else odd;
    if k > 2 {
      r := PochisqLoops(x, k, Clamped(m.exp), m, true, ev, y.value, s);
      return;
    }
    return Ok(s);
  }

  /** The guard: a non-int `df` raises, a non-positive `x` or a `df` below
      1 gives 1.0 before any arithmetic, `df == 1` fails on the unassigned
      `y`, and `df == 2` gives `ex(-x/2)`. Past the guard the only other
      failure is the division by `sqrt(x/2)`. */
  lemma ProbabilityGuard(x: real, df: Df, m: Numerics)
    ensures df.NotInt? ==> Probability(x, df, m) == Err(ValueError)
    ensures df.Int? && (x <= 0.0 || df.n < 1) ==> Probability(x, df, m) == Ok(1.0)
    ensures df == Int(1) && x > 0.0 ==> Probability(x, df, m) == Err(UnboundLocalError)
    ensures df == Int(2) && x > 0.0 ==> Probability(x, df, m) == Ok(Ex(m.exp, -0.5 * x))
    ensures df.Int? && df.n >= 2 && x > 0.0 && Probability(x, df, m).Err? ==>
      Probability(x, df, m) == Err(ZeroDivisionError) && 0.5 * x <= BIGX && m.sqrt(0.5 * x) == 0.0
  {
  }

  /** For even `df > 2` and `a = x/2 <= BIGX` the exponential is not
      clamped and the result is `exp(-a)` times the exponential series of
      `a` truncated after the power `df/2 - 1`. */
  lemma ProbabilityEvenSmall(x: real, n: int, m: Numerics)
    requires n > 2 && n % 2 == 0 && 0.0 < x && 0.5 * x <= BIGX && m.sqrt(0.5 * x) != 0.0
    ensures Probability(x, Int(n), m).Ok?
    ensures Probability(x, Int(n), m).value == m.exp(-0.5 * x) * TruncatedExp(0.5 * x, n / 2 - 1)
  {
    assert Clamped(m.exp)(-0.5 * x) == m.exp(-0.5 * x);
    EvenSmallSeries(x, n, Clamped(m.exp), m, true, m.exp(-0.5 * x));
  }

  /** For even `df > 2` and `a = x/2 > BIGX` the starting term `ex(-a)`
      is clamped to 0, so only the clamped terms of the loop remain. */
  lemma ProbabilityEvenLarge(x: real, n: int, m: Numerics)
    requires n > 2 && n % 2 == 0 && 0.5 * x > BIGX
    ensures Probability(x, Int(n), m)
         == Ok(LargeSum(Clamped(m.exp), m.log, 0.5 * x, m.log(0.5 * x), 0.0, 1.0, n / 2 - 1))
  {
    assert Clamped(m.exp)(-0.5 * x) == 0.0;
  }
}
