/** Values shared by the three ports of `ent`: bytes, the Python exceptions
    the statistics can raise, a result type, and integer sums over byte
    sequences. */
module Base {

  /** One unsigned 8-bit value, as Python yields it when iterating `bytes`. */
  type Byte = x: int | 0 <= x < 256

  /** The Python exceptions (and `decimal` signals) the modelled code raises. */
  datatype Error =
    | ValueError          // `raise ValueError`, or a non-int degrees of freedom
    | IndexError          // `d[0]` / `a[0]` on empty input, `counts[b]` past the end
    | ZeroDivisionError   // float or int division by zero
    | UnboundLocalError   // a local read before it is assigned
    | InvalidOperation    // `decimal`: 0 / 0
    | DivisionByZero      // `decimal`: x / 0 with x != 0

  datatype Option<+T> = None | Some(value: T)

  datatype Result<+T> = Ok(value: T) | Err(error: Error)

  /** `sum(s)` */
  function Sum(s: seq<int>): int
  {
    if s == [] then 0 else s[0] + Sum(s[1..])
  }

  /** `sum(j * j for j in s)` */
  function SumSq(s: seq<int>): int
  {
    if s == [] then 0 else s[0] * s[0] + SumSq(s[1..])
  }

  /** `sum(i * j for i, j in zip(a, b))`: `zip` stops at the shorter input. */
  function Dot(a: seq<int>, b: seq<int>): int
  {
    if a == [] || b == [] then 0 else a[0] * b[0] + Dot(a[1..], b[1..])
  }

  /** `[0] * n` */
  function Zeros(n: nat): (z: seq<int>)
    ensures |z| == n && forall i :: 0 <= i < n ==> z[i] == 0
  {
    seq(n, _ => 0)
  }

  lemma {:induction false} SumAppend(a: seq<int>, b: seq<int>)
    ensures Sum(a + b) == Sum(a) + Sum(b)
  {
    if a == [] {
      assert a + b == b;
    } else {
      assert (a + b)[1..] == a[1..] + b;
      SumAppend(a[1..], b);
    }
  }

  lemma {:induction false} SumSqAppend(a: seq<int>, b: seq<int>)
    ensures SumSq(a + b) == SumSq(a) + SumSq(b)
  {
    if a == [] {
      assert a + b == b;
    } else {
      assert (a + b)[1..] == a[1..] + b;
      SumSqAppend(a[1..], b);
    }
  }

  lemma {:induction false} DotAppend(a: seq<int>, b: seq<int>, c: seq<int>, d: seq<int>)
    requires |a| == |c|
    ensures Dot(a + b, c + d) == Dot(a, c) + Dot(b, d)
  {
    if a == [] {
      assert a + b == b && c + d == d;
    } else {
      assert (a + b)[1..] == a[1..] + b;
      assert (c + d)[1..] == c[1..] + d;
      DotAppend(a[1..], b, c[1..], d);
    }
  }

  /** Only the positions both sequences have contribute to `Dot`. */
  lemma {:induction false} DotOfZeros(a: seq<int>, n: nat)
    ensures Dot(a, Zeros(n)) == 0
  {
    if a != [] && n > 0 {
      assert Zeros(n)[1..] == Zeros(n - 1);
      DotOfZeros(a[1..], n - 1);
    }
  }

  /** The sum of a sequence after one entry is raised by one. */
  lemma {:induction false} SumIncrement(s: seq<int>, v: nat)
    requires v < |s|
    ensures Sum(s[v := s[v] + 1]) == Sum(s) + 1
  {
    if v == 0 {
      assert s[v := s[v] + 1][1..] == s[1..];
    } else {
      assert s[v := s[v] + 1][1..] == s[1..][v - 1 := s[v] + 1];
      SumIncrement(s[1..], v - 1);
    }
  }

  lemma {:induction false} SumZeros(n: nat)
    ensures Sum(Zeros(n)) == 0
  {
    if n > 0 {
      assert Zeros(n)[1..] == Zeros(n - 1);
      SumZeros(n - 1);
    }
  }

  /** Non-negative entries have a non-negative sum, zero only when every
      entry is zero. */
  lemma {:induction false} SumNonneg(s: seq<int>)
    requires forall i :: 0 <= i < |s| ==> s[i] >= 0
    ensures Sum(s) >= 0
    ensures Sum(s) == 0 ==> forall i :: 0 <= i < |s| ==> s[i] == 0
  {
    if s != [] {
      SumNonneg(s[1..]);
      if Sum(s) == 0 {
        forall i | 0 <= i < |s| ensures s[i] == 0 {
          if i > 0 {
            assert s[i] == s[1..][i - 1];
          }
        }
      }
    }
  }
}
