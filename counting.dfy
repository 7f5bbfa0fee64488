/** Byte-frequency tables: how often each of the 256 byte values occurs in
    a buffer, and the list of non-zero counts a `collections.Counter`
    over the buffer yields. */
module Counting {
  import opened Base

  /** The number of positions of `s` that hold `v`. */
  function Occurrences(s: seq<Byte>, v: int): (k: nat)
    ensures k <= |s|
  {
    if s == [] then 0
    else Occurrences(s[..|s| - 1], v) + (if s[|s| - 1] == v then 1 else 0)
  }

  /** The frequency table: entry `v` is the number of occurrences of `v`. */
  function Histogram(s: seq<Byte>): (h: seq<int>)
    ensures |h| == 256
    ensures forall v :: 0 <= v < 256 ==> h[v] == Occurrences(s, v)
  {
    seq(256, v => Occurrences(s, v))
  }

  /** Appending one byte raises exactly its own slot by one and leaves the
      other 255 unchanged. */
  lemma HistogramAppend(s: seq<Byte>, b: Byte)
    ensures Histogram(s + [b]) == Histogram(s)[b := Histogram(s)[b] + 1]
  {
    assert (s + [b])[..|s|] == s;
  }

  /** The counts of a frequency table add up to the buffer length. */
  lemma {:induction false} HistogramSum(s: seq<Byte>)
    ensures Sum(Histogram(s)) == |s|
  {
    if s == [] {
      assert Histogram(s) == Zeros(256);
      SumZeros(256);
    } else {
      var init, b := s[..|s| - 1], s[|s| - 1];
      assert s == init + [b];
      HistogramSum(init);
      HistogramAppend(init, b);
      SumIncrement(Histogram(init), b);
    }
  }

  /** A buffer holding `n` copies of `v` has the single non-zero count `n`,
      in slot `v`. */
  lemma {:induction false} HistogramConstant(v: Byte, n: nat)
    ensures Histogram(seq(n, _ => v)) == Zeros(256)[v := n]
  {
    if n == 0 {
      assert Histogram(seq(n, _ => v)) == Zeros(256);
    } else {
      var s := seq(n, _ => v);
      assert s == seq(n - 1, _ => v) + [v];
      HistogramConstant(v, n - 1);
      HistogramAppend(seq(n - 1, _ => v), v);
    }
  }

  /** The entries of `counts` that are positive, in order. */
  function Positives(counts: seq<int>): (p: seq<int>)
    ensures |p| <= |counts|
    ensures forall i :: 0 <= i < |p| ==> p[i] > 0
  {
    if counts == [] then []
    else (if counts[0] > 0 then [counts[0]] else []) + Positives(counts[1..])
  }

  /** The number of entries of `counts` that are zero. */
  function ZeroCount(counts: seq<int>): nat
  {
    if counts == [] then 0
    else (if counts[0] == 0 then 1 else 0) + ZeroCount(counts[1..])
  }

  /** `collections.Counter(s).values()`: the count of every byte value that
      occurs in `s`, and of no other. */
  function CounterValues(s: seq<Byte>): seq<int>
  {
    Positives(Histogram(s))
  }

  /** Dropping the zero counts does not change the total. */
  lemma {:induction false} PositivesSum(counts: seq<int>)
    requires forall i :: 0 <= i < |counts| ==> counts[i] >= 0
    ensures Sum(Positives(counts)) == Sum(counts)
  {
    if counts != [] {
      PositivesSum(counts[1..]);
      SumAppend(if counts[0] > 0 then [counts[0]] else [], Positives(counts[1..]));
    }
  }

  /** A Counter over a buffer lists exactly one count per distinct byte value
      present, and these counts add up to the buffer length. */
  lemma CounterValuesSum(s: seq<Byte>)
    ensures Sum(CounterValues(s)) == |s|
    ensures |CounterValues(s)| + ZeroCount(Histogram(s)) == 256
  {
    HistogramSum(s);
    PositivesSum(Histogram(s));
    PositivesSplit(Histogram(s));
  }

  lemma {:induction false} PositivesSplit(counts: seq<int>)
    requires forall i :: 0 <= i < |counts| ==> counts[i] >= 0
    ensures |Positives(counts)| + ZeroCount(counts) == |counts|
  {
    if counts != [] {
      PositivesSplit(counts[1..]);
    }
  }

  /** An empty buffer gives an empty Counter, and a non-empty one does not. */
  lemma CounterValuesEmpty(s: seq<Byte>)
    ensures CounterValues(s) == [] <==> s == []
  {
    CounterValuesSum(s);
    if s == [] {
      assert forall v :: 0 <= v < 256 ==> Histogram(s)[v] == 0;
      PositivesAllZero(Histogram(s));
    }
  }

  lemma {:induction false} PositivesAllZero(counts: seq<int>)
    requires forall i :: 0 <= i < |counts| ==> counts[i] == 0
    ensures Positives(counts) == []
  {
    if counts != [] {
      PositivesAllZero(counts[1..]);
    }
  }
}
