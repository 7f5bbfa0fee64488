/** The integer sums behind the serial correlation coefficient,
    `(n * t1 - t2) / (n * t3 - t2)` with `t2 = (sum d)**2` and
    `t3 = sum(x * x for x in d)`, and what can be said about them without
    any division. */
module Moments {
  import opened Base

  /** The correlation denominator `n * t3 - t2`, i.e. `n**2` times the
      population variance of `s`. */
  function Spread(s: seq<int>): int
  {
    |s| * SumSq(s) - Sum(s) * Sum(s)
  }

  /** All entries of `s` are the same value. */
  predicate AllEqual(s: seq<int>)
  {
    forall i, j :: 0 <= i < |s| && 0 <= j < |s| ==> s[i] == s[j]
  }

  /** `sum((x - y)**2 for x in s)` */
  function SqDev(s: seq<int>, y: int): int
  {
    if s == [] then 0 else (s[0] - y) * (s[0] - y) + SqDev(s[1..], y)
  }

  lemma SquareNonneg(x: int)
    ensures x * x >= 0
    ensures x != 0 ==> x * x > 0
  {
  }

  /** Squared deviations from `y` are never negative, and vanish exactly
      when every entry is `y`. */
  lemma {:induction false} SqDevSign(s: seq<int>, y: int)
    ensures SqDev(s, y) >= 0
    ensures SqDev(s, y) == 0 <==> forall i :: 0 <= i < |s| ==> s[i] == y
  {
    if s != [] {
      SquareNonneg(s[0] - y);
      SqDevSign(s[1..], y);
      if SqDev(s, y) == 0 {
        forall i | 0 <= i < |s| ensures s[i] == y {
          if i > 0 {
            assert s[i] == s[1..][i - 1];
          }
        }
      }
    }
  }

  lemma {:induction false} SqDevExpand(s: seq<int>, y: int)
    ensures SqDev(s, y) == SumSq(s) - 2 * y * Sum(s) + |s| * (y * y)
  {
    if s != [] {
      var x, rest := s[0], s[1..];
      SqDevExpand(rest, y);
      ExpandStep(x, y, |rest|, Sum(rest), SumSq(rest), SqDev(rest, y));
    }
  }

  /** One entry `x` more in the expansion of the squared deviations. */
  lemma ExpandStep(x: int, y: int, n: int, S: int, Q: int, R: int)
    requires R == Q - 2 * y * S + n * (y * y)
    ensures (x - y) * (x - y) + R == (x * x + Q) - 2 * y * (x + S) + (n + 1) * (y * y)
  {
  }

  /** Prepending `y` adds its squared deviations from the rest. */
  lemma SpreadCons(y: int, s: seq<int>)
    ensures Spread([y] + s) == Spread(s) + SqDev(s, y)
  {
    var t := [y] + s;
    assert t[1..] == s;
    SqDevExpand(s, y);
    assert Sum(t) == y + Sum(s) && SumSq(t) == y * y + SumSq(s) && |t| == |s| + 1;
    ConsAlgebra(|s|, Sum(s), SumSq(s), y);
  }

  lemma ConsAlgebra(n: int, S: int, Q: int, y: int)
    ensures (n + 1) * (y * y + Q) - (y + S) * (y + S)
         == (n * Q - S * S) + (Q - 2 * y * S + n * (y * y))
  {
  }

  /** The correlation denominator is never negative (the Cauchy-Schwarz
      inequality for a sequence and the all-ones sequence), and on a
      non-empty sequence it is zero exactly when all entries are equal. */
  lemma {:induction false} SpreadSign(s: seq<int>)
    ensures Spread(s) >= 0
    ensures s != [] ==> (Spread(s) == 0 <==> AllEqual(s))
  {
    if s != [] {
      var y, rest := s[0], s[1..];
      assert s == [y] + rest;
      SpreadCons(y, rest);
      SqDevSign(rest, y);
      SpreadSign(rest);
      if Spread(s) == 0 {
        assert forall i :: 0 <= i < |rest| ==> rest[i] == y;
        forall i, j | 0 <= i < |s| && 0 <= j < |s| ensures s[i] == s[j] {
          assert s[i] == y by { if i > 0 { assert s[i] == rest[i - 1]; } }
          assert s[j] == y by { if j > 0 { assert s[j] == rest[j - 1]; } }
        }
      }
      if AllEqual(s) {
        assert forall i :: 0 <= i < |rest| ==> rest[i] == y by {
          forall i | 0 <= i < |rest| ensures rest[i] == y {
            assert rest[i] == s[i + 1];
          }
        }
        if rest != [] {
          assert AllEqual(rest) by {
            forall i, j | 0 <= i < |rest| && 0 <= j < |rest| ensures rest[i] == rest[j] {
              assert rest[i] == s[i + 1] && rest[j] == s[j + 1];
            }
          }
        } else {
          assert Spread(rest) == 0;
        }
      }
    }
  }

  /** Element-wise `a[i] + sign * b[i]`, `sign` being 1 or -1. */
  function Combine(a: seq<int>, b: seq<int>, sign: int): (w: seq<int>)
    requires |a| == |b|
    ensures |w| == |a|
  {
    if a == [] then [] else [a[0] + sign * b[0]] + Combine(a[1..], b[1..], sign)
  }

  lemma {:induction false} CombineSums(a: seq<int>, b: seq<int>, sign: int)
    requires |a| == |b| && (sign == 1 || sign == -1)
    ensures Sum(Combine(a, b, sign)) == Sum(a) + sign * Sum(b)
    ensures SumSq(Combine(a, b, sign)) == SumSq(a) + 2 * sign * Dot(a, b) + SumSq(b)
  {
    if a != [] {
      var w := Combine(a, b, sign);
      assert w[0] == a[0] + sign * b[0] && w[1..] == Combine(a[1..], b[1..], sign);
      CombineSums(a[1..], b[1..], sign);
      CombineStep(a[0], b[0], sign, Sum(a[1..]), Sum(b[1..]), SumSq(a[1..]), SumSq(b[1..]), Dot(a[1..], b[1..]));
    }
  }

  /** One pair `x`, `y` more in the sums of `a + sign * b`. */
  lemma CombineStep(x: int, y: int, sign: int, sa: int, sb: int, qa: int, qb: int, t: int)
    requires sign == 1 || sign == -1
    ensures (x + sign * y) + (sa + sign * sb) == (x + sa) + sign * (y + sb)
    ensures (x + sign * y) * (x + sign * y) + (qa + 2 * sign * t + qb)
         == (x * x + qa) + 2 * sign * (x * y + t) + (y * y + qb)
  {
  }

  /** When `b` has the same sum and the same sum of squares as `a` (as a
      rotation of `a` has), the correlation numerator `n * t1 - t2` lies
      between minus and plus the denominator: the coefficient is a
      correlation in [-1, 1]. */
  lemma NumeratorBound(a: seq<int>, b: seq<int>)
    requires |a| == |b| > 0
    requires Sum(b) == Sum(a) && SumSq(b) == SumSq(a)
    ensures -Spread(a) <= |a| * Dot(a, b) - Sum(a) * Sum(a) <= Spread(a)
  {
    SumSpread(a, b);
    DifferenceSpread(a, b);
    BoundAlgebra(|a|, Sum(a), SumSq(a), Dot(a, b));
  }

  /** The spread of `a[i] + b[i]` is not negative. */
  lemma SumSpread(a: seq<int>, b: seq<int>)
    requires |a| == |b| && Sum(b) == Sum(a) && SumSq(b) == SumSq(a)
    ensures |a| * (2 * SumSq(a) + 2 * Dot(a, b)) - (2 * Sum(a)) * (2 * Sum(a)) >= 0
  {
    var plus := Combine(a, b, 1);
    CombineSums(a, b, 1);
    SpreadSign(plus);
    SpreadOf(plus, |a|, 2 * Sum(a), 2 * SumSq(a) + 2 * Dot(a, b));
  }

  /** The spread of `a[i] - b[i]` is not negative. */
  lemma DifferenceSpread(a: seq<int>, b: seq<int>)
    requires |a| == |b| && Sum(b) == Sum(a) && SumSq(b) == SumSq(a)
    ensures |a| * (2 * SumSq(a) - 2 * Dot(a, b)) - 0 * 0 >= 0
  {
    var minus := Combine(a, b, -1);
    CombineSums(a, b, -1);
    SpreadSign(minus);
    SpreadOf(minus, |a|, 0, 2 * SumSq(a) - 2 * Dot(a, b));
  }

  lemma SpreadOf(w: seq<int>, n: int, s: int, q: int)
    requires |w| == n && Sum(w) == s && SumSq(w) == q
    ensures Spread(w) == n * q - s * s
  {
  }

  lemma BoundAlgebra(n: int, S: int, Q: int, T: int)
    requires n * (2 * Q + 2 * T) - (2 * S) * (2 * S) >= 0
    requires n * (2 * Q - 2 * T) - 0 * 0 >= 0
    ensures -(n * Q - S * S) <= n * T - S * S <= n * Q - S * S
  {
    assert n * (2 * Q + 2 * T) == 2 * (n * Q) + 2 * (n * T);
    assert n * (2 * Q - 2 * T) == 2 * (n * Q) - 2 * (n * T);
    assert (2 * S) * (2 * S) == 4 * (S * S);
  }

  /** `sum(d[i] * d[i + 1] for i in range(len(d) - 1))`: each byte times its
      successor, without the wrap-around pair. */
  function Lag(s: seq<int>): int
  {
    if |s| < 2 then 0 else s[0] * s[1] + Lag(s[1..])
  }

  /** Pairing each entry but the last with its successor gives `Lag`. */
  lemma {:induction false} DotWithSuccessor(s: seq<int>)
    requires s != []
    ensures Dot(s[..|s| - 1], s[1..]) == Lag(s)
  {
    if |s| >= 2 {
      var t := s[1..];
      DotWithSuccessor(t);
      assert s[..|s| - 1][1..] == t[..|t| - 1];
      assert s[1..][1..] == t[1..];
    }
  }

  /** `zip(d, d[1:] + pad)` with a pad of zeros: the final pair, if `zip`
      keeps it at all, is `d[-1] * 0`, so only the inner pairs count. */
  lemma ZeroPaddedSuccessors(s: seq<int>, k: nat)
    requires s != []
    ensures Dot(s, s[1..] + Zeros(k)) == Lag(s)
  {
    var n := |s|;
    assert s == s[..n - 1] + [s[n - 1]];
    DotAppend(s[..n - 1], [s[n - 1]], s[1..], Zeros(k));
    DotOfZeros([s[n - 1]], k);
    DotWithSuccessor(s);
  }

  /** `zip(d, d[1:] + d[:1])`: the inner pairs plus the wrap-around pair
      `d[-1] * d[0]`. */
  lemma RotatedSuccessors(s: seq<int>)
    requires s != []
    ensures Dot(s, s[1..] + [s[0]]) == Lag(s) + s[|s| - 1] * s[0]
  {
    var n := |s|;
    assert s == s[..n - 1] + [s[n - 1]];
    DotAppend(s[..n - 1], [s[n - 1]], s[1..], [s[0]]);
    assert Dot([s[n - 1]], [s[0]]) == s[n - 1] * s[0];
    DotWithSuccessor(s);
  }

  /** A left rotation keeps the sum and the sum of squares. */
  lemma RotationSums(s: seq<int>)
    requires s != []
    ensures Sum(s[1..] + [s[0]]) == Sum(s)
    ensures SumSq(s[1..] + [s[0]]) == SumSq(s)
  {
    SumAppend(s[1..], [s[0]]);
    SumSqAppend(s[1..], [s[0]]);
  }

  /** Division of a numerator bounded by a positive denominator. */
  lemma QuotientBounds(c: int, d: int)
    requires d > 0 && -d <= c <= d
    ensures -1.0 <= c as real / d as real <= 1.0
  {
  }
}
