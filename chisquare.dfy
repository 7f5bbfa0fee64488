/** Pearson's chi-square sum against a uniform expected count, shared by the
    three ports: each sums `(c - e)**2 / e` over a list of counts; they
    differ in which counts they sum over and in how they obtain `e`. */
module ChiSquare {
  import opened Base
  import opened Counting

  /** `x ** 2` */
  function Sq(x: real): real
  {
    x * x
  }

  /** `(c - e)**2 / e` */
  function Term(c: int, e: real): real
    requires e != 0.0
  {
    Sq(c as real - e) / e
  }

  /** `sum((c - e)**2 / e for c in counts)` */
  function Chi(counts: seq<int>, e: real): real
    requires e != 0.0
  {
    if counts == [] then 0.0 else Term(counts[0], e) + Chi(counts[1..], e)
  }

  lemma SqSign(d: real)
    ensures Sq(d) >= 0.0
    ensures Sq(d) == 0.0 <==> d == 0.0
  {
    if d > 0.0 {
      calc {
        Sq(d);
      ==
        d * d;
      >
        0.0;
      }
    } else if d < 0.0 {
      calc {
        Sq(d);
      ==
        (-d) * (-d);
      >
        0.0;
      }
    }
  }

  lemma QuotientSign(x: real, e: real)
    requires e > 0.0
    ensures x >= 0.0 ==> x / e >= 0.0
    ensures x > 0.0 ==> x / e > 0.0
    ensures x == 0.0 ==> x / e == 0.0
  {
  }

  /** One term is never negative, and it is zero exactly at the expected
      count. */
  lemma TermSign(c: int, e: real)
    requires e > 0.0
    ensures Term(c, e) >= 0.0
    ensures Term(c, e) == 0.0 <==> c as real == e
  {
    SqSign(c as real - e);
    QuotientSign(Sq(c as real - e), e);
  }

  lemma ScaledSquareOver(k: real, e: real)
    requires e > 0.0
    ensures (k * (e * e)) / e == k * e
  {
  }

  /** An empty slot contributes the expected count itself. */
  lemma TermOfZero(e: real)
    requires e > 0.0
    ensures Term(0, e) == e
  {
    assert Sq(0 as real - e) == e * e;
  }

  /** The statistic is never negative, and it is zero exactly when every
      count equals the expected count. */
  lemma {:induction false} ChiZero(counts: seq<int>, e: real)
    requires e > 0.0
    ensures Chi(counts, e) >= 0.0
    ensures Chi(counts, e) == 0.0 <==> forall i :: 0 <= i < |counts| ==> counts[i] as real == e
  {
    if counts != [] {
      TermSign(counts[0], e);
      ChiZero(counts[1..], e);
      if Chi(counts, e) == 0.0 {
        forall i | 0 <= i < |counts| ensures counts[i] as real == e {
          if i > 0 {
            assert counts[i] == counts[1..][i - 1];
          }
        }
      }
    }
  }

  lemma {:induction false} ChiAppend(a: seq<int>, b: seq<int>, e: real)
    requires e > 0.0
    ensures Chi(a + b, e) == Chi(a, e) + Chi(b, e)
  {
    if a == [] {
      assert a + b == b;
    } else {
      assert (a + b)[1..] == a[1..] + b;
      ChiAppend(a[1..], b, e);
    }
  }

  /** Every empty slot contributes exactly the expected count `e`. */
  lemma {:induction false} ChiZeros(n: nat, e: real)
    requires e > 0.0
    ensures Chi(Zeros(n), e) == n as real * e
  {
    if n > 0 {
      assert Zeros(n)[1..] == Zeros(n - 1);
      TermOfZero(e);
      ChiZeros(n - 1, e);
    }
  }

  /** Summing only over the positive counts (as a Counter does) drops one
      `e` per zero count and changes nothing else. */
  lemma ChiPositives(counts: seq<int>, e: real)
    requires e > 0.0
    requires forall i :: 0 <= i < |counts| ==> counts[i] >= 0
    ensures Chi(Positives(counts), e) + ZeroCount(counts) as real * e == Chi(counts, e)
  {
    ChiSplit(counts, e);
    ChiZeros(ZeroCount(counts), e);
  }

  lemma {:induction false} ChiSplit(counts: seq<int>, e: real)
    requires e > 0.0
    requires forall i :: 0 <= i < |counts| ==> counts[i] >= 0
    ensures Chi(Positives(counts), e) + Chi(Zeros(ZeroCount(counts)), e) == Chi(counts, e)
  {
    if counts != [] {
      var x, rest := counts[0], counts[1..];
      ChiSplit(rest, e);
      if x > 0 {
        assert Chi(Positives(counts), e) == Term(x, e) + Chi(Positives(rest), e) by {
          assert Positives(counts) == [x] + Positives(rest);
          ChiAppend([x], Positives(rest), e);
        }
        assert ZeroCount(counts) == ZeroCount(rest);
      } else {
        assert Positives(counts) == Positives(rest);
        assert Chi(Zeros(ZeroCount(counts)), e) == Term(x, e) + Chi(Zeros(ZeroCount(rest)), e) by {
          assert Zeros(ZeroCount(counts)) == [0] + Zeros(ZeroCount(rest));
        }
      }
    }
  }

  /** A table whose only non-zero count is `n`, with expected count
      `n / 256`, has chi-square `255 * n`. */
  lemma ChiSingleSlot(v: Byte, n: nat)
    requires n > 0
    ensures Chi(Zeros(256)[v := n], n as real / 256.0) == 255.0 * n as real
  {
    var e := n as real / 256.0;
    ChiSlotSplit(v, n, e);
    TermOfWholeBuffer(n);
    SlotArithmetic(v as real, n as real, e, Term(n, e));
  }

  /** The table with the single non-zero count `n` in slot `v`: the other
      255 slots contribute `e` each. */
  lemma ChiSlotSplit(v: Byte, n: int, e: real)
    requires e > 0.0
    ensures Chi(Zeros(256)[v := n], e) == v as real * e + Term(n, e) + (255.0 - v as real) * e
  {
    var left, right := Zeros(v), Zeros(255 - v);
    assert Zeros(256)[v := n] == left + [n] + right;
    ChiAppend(left + [n], right, e);
    ChiAppend(left, [n], e);
    ChiZeros(v, e);
    ChiZeros(255 - v, e);
    assert Chi([n], e) == Term(n, e);
  }

  lemma SlotArithmetic(v: real, n: real, e: real, t: real)
    requires e == n / 256.0 && t == 65025.0 * e
    ensures v * e + t + (255.0 - v) * e == 255.0 * n
  {
  }

  /** The count `n` against expected count `n / 256`. */
  lemma TermOfWholeBuffer(n: nat)
    requires n > 0
    ensures Term(n, n as real / 256.0) == 65025.0 * (n as real / 256.0)
  {
    var e := n as real / 256.0;
    assert n as real - e == 255.0 * e;
    assert Sq(n as real - e) == 65025.0 * (e * e);
    ScaledSquareOver(65025.0, e);
    assert Term(n, e) == (65025.0 * (e * e)) / e;
  }
}
