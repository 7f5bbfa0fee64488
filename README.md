# ent: the exact core of three Python ports

`ent` tests a byte stream for randomness. This project models the integer and
exact-rational core of three Python ports of it. Each port reports:
- Pearson's chi-square statistic of the byte frequencies, with its tail
  probability;
- the serial correlation coefficient;
- a Monte Carlo estimate of pi.

The three ports are:
- `ent.py` (Python 2): counts bytes into a 256-slot table in place. Its
  chi-square always uses all 256 slots against the expected count
  `len(d)/256`. Its `pochisq` clamps every exponential with `ex`.
- `ent_without_numpy.py` (Python 3, floats): takes the values of a
  `collections.Counter`, that is, only the byte values that occur. Its
  `correlation` pads with zero bytes where a rotation was meant. Its
  `monte_carlo` divides by the number of x coordinates.
- `ent_decimal.py` (Python 3, `decimal.Decimal`): the same Counter statistic,
  a true cyclic rotation in `correlation`, and a `monte_carlo` that keeps only
  whole points.

The model computes the exact rational value of each result, over `int` and
`real`. The source returns that value rounded:
- The chi-square statistics are rounded at every operation: floating-point
  arithmetic in `ent.py` and `ent_without_numpy.py`, and Decimal arithmetic
  to 28 significant digits in `ent_decimal.py`.
- `correlation` and `monte_carlo` build their numerators and denominators
  from integers. These are Python ints, or floats and Decimals that hold small
  integers exactly. They round once, in the final division. For example,
  15 zero bytes give `4*2/3`, which the model states as exactly 8/3 and
  `ent_without_numpy.py` returns as the nearest double.

`exp`, `log`, `sqrt`, `_poz` and `NormalDist().cdf` enter as function values
of a `Numerics` parameter. Nothing is assumed about them. The control
structure of `pochisq` is modelled around them: its guard, its parity and
magnitude branches, its loop trip counts, and its two `while` loops as
imperative methods. In the even small-argument branch the loop is proved to
build the truncated exponential series.

Modules:
- `Base`: bytes, errors, results, integer sums.
- `Counting`: the byte histogram and the values of a Counter.
- `ChiSquare`: the sum shared by the three statistics.
- `Moments`: the correlation sums and the Cauchy-Schwarz bound.
- `MonteCarloPi`: coordinates, points and the quarter circle.
- `Series`: the loops of `pochisq`.
- `Ent`, `EntWithoutNumpy`, `EntDecimal`: one module per port.
- `Ports`: what the three ports compute relative to one another on the same
  data.

Two edge cases, read from the code:
- The Counter-based `pearsonchisquare` on an empty list of counts returns 0.
  `sum` of an empty generator is 0, and no division by `np` is evaluated. It divides
  by zero only for a non-empty list whose counts add up to 0
  (`ent_without_numpy.py:165-166`).
- `pochisq(x, 1)` with `x > 0` behaves differently in the two modelled ports.
  `ent_without_numpy.py:230` chooses `y` with a lazy conditional expression,
  so the unassigned `y` is never read. `ent.py:148` passes `y` as an argument
  of `even`, so it is read eagerly and fails.

## Model

| member | source | states |
|---|---|---|
| Counting.Histogram | ent.py:25-27 | 256 slots, slot `v` holding the number of positions of the data that hold `v` |
| Counting.HistogramAppend | ent.py:26-27 | one more byte `b` increments slot `b` and leaves the other 255 slots unchanged |
| Counting.HistogramSum | ent.py:25-27 | the counts add up to the length of the data |
| Counting.HistogramConstant | ent.py:25-27 | `n` copies of one byte value fill that one slot with `n` and leave the other slots at 0 |
| Counting.CounterValues | ent_without_numpy.py:131 | definitional piece: `collections.Counter(data).values()` as the positive slots of the histogram; its meaning is carried by `Counting.CounterValuesSum` and `Counting.CounterValuesEmpty` |
| Counting.CounterValuesSum | ent_without_numpy.py:131 | the Counter's values add up to the length of the data, and the values plus the absent byte values make 256 |
| Counting.CounterValuesEmpty | ent_without_numpy.py:131 | the Counter has no values exactly when the data is empty |
| Counting.PositivesSum | ent_decimal.py:134 | leaving out the zero counts keeps the total |
| Counting.PositivesSplit | ent_decimal.py:134 | every slot is either a value the Counter keeps or an absent byte value |
| Ent.CountBytes | ent.py:25-27 | the in-place loop over a 256-slot array produces the histogram, whose counts add up to `len(ba)` |
| Ent.ChiOver256 | ent.py:41-46 | no counts gives IndexError, empty data gives ZeroDivisionError, fewer than 256 slots gives IndexError; otherwise the result is at least 0, is 0 exactly when every slot holds `len(d)/256`, and is then possible only for lengths that are multiples of 256 |
| Ent.PearsonChiSquare | ent.py:30-46 | with `counts` None or empty the table is recounted from `d`, and the result is the statistic of the counting loop's table |
| Ent.ChiOfOwnCounts | ent.py:41-46 | on its own counts the statistic fails exactly for empty data, with ZeroDivisionError, and otherwise sums over the 256 slots against `len(d)/256` |
| Ent.ChiConstantBuffer | ent.py:41-46 | `n > 0` copies of one byte value give the statistic `255 * n` |
| ChiSquare.ChiZero | ent.py:46 | the sum is at least 0 and is 0 exactly when every count equals the expected count |
| ChiSquare.TermSign | ent.py:46 | each term `(c - e)**2 / e` is at least 0 and is 0 exactly at `c == e` |
| ChiSquare.ChiAppend | ent.py:46 | the sum over a concatenation is the sum of the sums |
| ChiSquare.ChiZeros | ent_without_numpy.py:166 | every zero count contributes the expected count `e` |
| ChiSquare.ChiPositives | ent_without_numpy.py:131-166 | summing only over the positive counts leaves out exactly `e` per zero slot |
| ChiSquare.ChiSingleSlot | ent.py:41-46 | a table with one non-zero slot `n`, against `n/256`, sums to `255 * n` |
| ChiSquare.TermOfWholeBuffer | ent.py:46 | helper of `ChiSquare.ChiSingleSlot`: the count `n` against `n/256` contributes `65025 * n/256` |
| ChiSquare.Chi | ent.py:46 | definitional piece: `sum((c - e)**2 / e for c in counts)`, also at `ent_without_numpy.py:166` and `ent_decimal.py:169`; its meaning is carried by `ChiSquare.ChiZero`, `ChiSquare.ChiPositives` and `ChiSquare.ChiSingleSlot` |
| EntWithoutNumpy.PearsonChiSquare | ent_without_numpy.py:152-166 | no counts give 0; otherwise the statistic fails, with ZeroDivisionError, exactly when the counts add up to 0; over non-negative counts the result is at least 0 |
| EntWithoutNumpy.CounterChiSquare | ent_without_numpy.py:131-166 | on the Counter of the data: 0 for empty data; otherwise defined and equal to the 256-slot sum minus `e` for every absent byte value |
| EntWithoutNumpy.PaddedSuccessors | ent_without_numpy.py:180 | `d[1:] + bytes(d[0])` has `len(d) - 1 + d[0]` entries: `bytes(k)` is `k` zero bytes |
| EntWithoutNumpy.Correlation | ent_without_numpy.py:169-188 | empty data gives IndexError; ValueError exactly when all bytes are equal; a result exactly for non-empty data that is not constant, where the denominator is positive and the result is `(n*t1 - t2)/D`, where `t1` holds only the `n - 1` adjacent products |
| EntWithoutNumpy.CorrelationOutOfRange | ent_without_numpy.py:180-188 | the data `[2, 1]` gives the coefficient -5 |
| EntWithoutNumpy.Pack | ent_without_numpy.py:264-266 | `zip` of the three strided slices stops at the shortest, and each entry is the big-endian value of its three bytes |
| EntWithoutNumpy.Values | ent_without_numpy.py:264-266 | the coordinates are one big-endian 24-bit value per complete triple of bytes |
| EntWithoutNumpy.MonteCarlo | ent_without_numpy.py:254-273 | fewer than 3 bytes gives ZeroDivisionError and nothing else fails; the estimate lies in [0, 4] and is four times the points in the circle over `(len(d)//3 + 1)//2`, the number of x coordinates |
| EntWithoutNumpy.MonteCarloUnpairedX | ent_without_numpy.py:267-272 | nine bytes make one point and an unpaired x; the estimate is at most 2, and exactly 2 when the point lies in the circle |
| EntWithoutNumpy.InsideOfThree | ent_without_numpy.py:267-271 | three coordinates make one point, the third coordinate pairs with nothing |
| EntWithoutNumpy.NineZeroBytes | ent_without_numpy.py:267-272 | nine zero bytes estimate pi as 2 |
| EntWithoutNumpy.ZeroPoint | ent_without_numpy.py:264-271 | six zero bytes make the point (0, 0), inside the circle |
| EntWithoutNumpy.ZeroCoordinate | ent_without_numpy.py:264-266 | three zero bytes make the coordinate 0 |
| EntWithoutNumpy.Pochisq | ent_without_numpy.py:191-251 | the step-by-step procedure, lazy `y` and loops included, returns or raises what `Probability` describes |
| EntWithoutNumpy.Probability | ent_without_numpy.py:191-251 | definitional piece: what `pochisq` returns or raises; its meaning is carried by `EntWithoutNumpy.Pochisq`, `EntWithoutNumpy.ProbabilityGuard` and `EntWithoutNumpy.ProbabilityEvenSmall` |
| EntWithoutNumpy.ProbabilityGuard | ent_without_numpy.py:216-230 | a non-int `df` gives ValueError; `x <= 0` or `df < 1` gives 1.0; `df == 1` gives `2 * cdf(-sqrt(x))` without failing; `df == 2` gives `exp(-x/2)`; otherwise the only failure is the division by `sqrt(x/2) == 0` |
| EntWithoutNumpy.ProbabilityEvenSmall | ent_without_numpy.py:242-249 | for even `df > 2` and `x/2 <= 20` the result is `exp(-x/2)` times the exponential series of `x/2` truncated after the power `df/2 - 1` |
| EntDecimal.PearsonChiSquare | ent_decimal.py:155-169 | no counts give 0; otherwise the statistic fails exactly when the counts add up to 0: InvalidOperation (0/0) when the first count is 0, DivisionByZero otherwise; over non-negative counts the result is at least 0 |
| EntDecimal.CounterChiSquareDefined | ent_decimal.py:134-169 | on the Counter of any data the statistic is defined, and it is 0 for empty data |
| EntDecimal.Rotated | ent_decimal.py:184 | `a[1:] + [a[0]]` is the cyclic left rotation: entry `i` is `d[i+1]` and the last is `d[0]` |
| EntDecimal.Correlation | ent_decimal.py:172-192 | empty data gives IndexError; ValueError exactly when all bytes are equal; a result exactly for non-empty data that is not constant, where the denominator is positive, `t1` includes the wrap-around product `d[n-1]*d[0]`, and the coefficient lies in [-1, 1] |
| EntDecimal.Weight | ent_decimal.py:272-273 | definitional piece: the weight of position `i` in `cycle([65536, 256, 1])`; its meaning is carried by `EntDecimal.GroupAt` |
| EntDecimal.Weighted | ent_decimal.py:271-273 | definitional piece: every byte times the weight of its position; its meaning is carried by `EntDecimal.GroupAt` |
| EntDecimal.Groups | ent_decimal.py:274-276 | definitional piece: the shared-iterator `zip_longest` sums consecutive threes; `EntDecimal.ValuesAreTriples` proves the result is the big-endian reading of the data |
| EntDecimal.Values | ent_decimal.py:270-276 | the data cut to `len(d)//6*6` gives exactly two coordinates per point |
| EntDecimal.ValuesAreTriples | ent_decimal.py:270-276 | weighting and grouping read each triple big-endian: the coordinates are the first `2*(len(d)//6)` big-endian values |
| EntDecimal.GroupAt | ent_decimal.py:271-276 | coordinate `i` is the big-endian value of bytes `3i` to `3i+2` |
| EntDecimal.MonteCarlo | ent_decimal.py:258-282 | fewer than 6 bytes gives InvalidOperation (0/0) and nothing else fails; the estimate lies in [0, 4] and is four times the points in the circle over the number of points `len(d)//6` |
| EntDecimal.PointsArePaired | ent_decimal.py:277-278 | the x and y lists both have `len(d)//6` entries |
| MonteCarloPi.RadiusIsMaxCoordSquared | ent_without_numpy.py:270-271 | 281474943156225 is `(2**24 - 1)**2` |
| MonteCarloPi.Stride | ent_without_numpy.py:264-267 | `s[start::step]` has the length Python gives it and holds the entries `start + step*i` |
| MonteCarloPi.BigEndian24 | ent_without_numpy.py:265 | `a*65536 + b*256 + c` lies in [0, 2**24 - 1] |
| MonteCarloPi.InCircle | ent_without_numpy.py:271 | definitional piece: the test `x*x + y*y <= 281474943156225`; its meaning is carried by `MonteCarloPi.RadiusIsMaxCoordSquared` and `EntWithoutNumpy.ZeroPoint` |
| MonteCarloPi.Triples | ent_without_numpy.py:264-266 | `len(d)//3` coordinates, each in [0, 2**24 - 1]; trailing bytes are ignored |
| MonteCarloPi.TripleAt | ent_without_numpy.py:264-266 | coordinate `i` is read from bytes `3i` to `3i+2` |
| MonteCarloPi.Hits | ent_without_numpy.py:269-271 | the points in the circle number at most the length of either list `zip` pairs |
| MonteCarloPi.Xs | ent_without_numpy.py:267 | `values[0::2]` has `ceil(len/2)` entries |
| MonteCarloPi.Ys | ent_without_numpy.py:268 | `values[1::2]` has `floor(len/2)` entries |
| MonteCarloPi.Inside | ent_without_numpy.py:267-271 | `inmont` is at most the number of complete points |
| MonteCarloPi.EstimateBounds | ent_without_numpy.py:272 | helper of the two `MonteCarlo` functions' [0, 4] bound: `4 * inmont / points` lies in [0, 4] when `inmont <= points` |
| MonteCarloPi.HitsTruncate | ent_without_numpy.py:269 | `zip` ignores the x coordinates that have no y |
| MonteCarloPi.InsideOfWholePairs | ent_without_numpy.py:267-271 | a trailing unpaired coordinate adds no point |
| Moments.SpreadSign | ent_without_numpy.py:182-186 | `D = n*t3 - t2` is at least 0 and, for non-empty data, is 0 exactly when all bytes are equal |
| Moments.Spread | ent_without_numpy.py:184 | definitional piece: the denominator `n*t3 - t2`, also at `ent_decimal.py:188`; its meaning is carried by `Moments.SpreadSign` and `Moments.NumeratorBound` |
| Moments.SqDevSign | ent_without_numpy.py:182-186 | the squared deviations from a value are at least 0, and 0 exactly when every entry equals it |
| Moments.SqDevExpand | ent_without_numpy.py:182-186 | the squared deviations expand into sums and sums of squares |
| Moments.SpreadCons | ent_without_numpy.py:182-186 | helper of `Moments.SpreadSign`: one more entry adds its squared deviations from the others to `D` |
| Moments.CombineSums | ent_decimal.py:185-187 | helper of `Moments.NumeratorBound`: sum and sum of squares of `a + b` and `a - b`, entry by entry, in terms of the dot product |
| Moments.NumeratorBound | ent_decimal.py:185-191 | when the second list has the sum and sum of squares of the first, `abs(n*t1 - t2) <= D` (Cauchy-Schwarz) |
| Moments.SumSpread | ent_decimal.py:185-191 | the entry-wise sum of the data and its rotation has a non-negative spread |
| Moments.DifferenceSpread | ent_decimal.py:185-191 | the entry-wise difference of the data and its rotation has a non-negative spread |
| Moments.DotWithSuccessor | ent_without_numpy.py:181 | the products of neighbours `d[i]*d[i+1]` make up `Lag` |
| Moments.ZeroPaddedSuccessors | ent_without_numpy.py:180-181 | against `d[1:]` padded with zeros, `t1` is `Lag`, without the wrap-around product |
| Moments.RotatedSuccessors | ent_decimal.py:184-185 | against the rotation, `t1` is `Lag` plus `d[n-1]*d[0]` |
| Moments.RotationSums | ent_decimal.py:184-187 | a rotation keeps the sum and the sum of squares |
| Moments.QuotientBounds | ent_decimal.py:191 | helper of `EntDecimal.Correlation`'s range: `c/d` lies in [-1, 1] when `-d <= c <= d` and `d > 0` |
| Series.PochisqTrips | ent.py:149-152 | the loops run `df/2 - 1` times for even `df > 2` and `(df-1)/2` times for odd `df > 2` |
| Series.TripsStep | ent.py:155-158 | helper of `Series.SmallArgLoop` and `Series.LargeArgLoop`: each pass with `z <= x` leaves one pass fewer |
| Series.SmallArgLoop | ent.py:163-166 | the loop `e *= a/z; c += e; z += 1.0` ends with `c` the sum of the terms it built |
| Series.LargeArgLoop | ent.py:155-158 | the loop `e += log(z); s += ex(c*z - a - e); z += 1.0` ends with `s` increased by its terms |
| Series.LargeSumStep | ent.py:155-158 | helper of `Series.LargeArgLoop`: one more pass adds `exp(c*z - a - e)` at the current `z` and accumulated `e` |
| Series.EvenTerm | ent.py:163-164 | from `e = 1` and `z = 1`, term `k` is `a**k / k!` |
| Series.EvenTermStep | ent.py:163-164 | helper of `Series.EvenTerm`: one pass of `e *= a/z` turns `a**(k-1)/(k-1)!` into `a**k/k!` |
| Series.EvenSeries | ent.py:160-167 | for even `df`, `1 + c` is the exponential series truncated after the power `m` |
| Series.PochisqLoops | ent.py:149-167 | the part after `s` is set chooses the branch on `a > 20` and runs its loop, returning what `SeriesResult` describes |
| Series.LargeArgument | ent.py:152-159 | the `a > 20` branch starts `e` at 0 or `log(sqrt(pi))` and returns `s` plus the loop's terms |
| Series.SmallArgument | ent.py:160-167 | the `a <= 20` branch starts `e` at 1 or `1/sqrt(pi)/sqrt(a)` and returns `c*y + s` |
| Series.EvenSmallSeries | ent.py:160-167 | for even `df > 2` and `a <= 20` the result is `y` times the truncated exponential series |
| Series.Start | ent.py:146-148 | definitional piece: `s` before the loops, `y` for even `df` and `2*_poz(-sqrt(x))` for odd `df`; its meaning is carried by `Ent.ProbabilityGuard` |
| Series.SeriesResult | ent.py:149-169 | definitional piece: the result for `df > 2` by magnitude branch, with the loops as sums; its meaning is carried by `Series.PochisqLoops` and `Series.EvenSmallSeries` |
| Ent.Pochisq | ent.py:106-169 | the step-by-step procedure, loops included, returns or raises what `Probability` describes |
| Ent.Probability | ent.py:106-169 | definitional piece: what `pochisq` returns or raises; its meaning is carried by `Ent.Pochisq`, `Ent.ProbabilityGuard`, `Ent.ProbabilityEvenSmall` and `Ent.ProbabilityEvenLarge` |
| Ent.Ex | ent.py:142-145 | definitional piece: `ex(t)` is 0.0 below `-BIGX` and `exp(t)` otherwise; its meaning is carried by `Ent.ProbabilityEvenSmall` and `Ent.ProbabilityEvenLarge` |
| Ent.ProbabilityGuard | ent.py:127-148 | a non-int `df` gives ValueError; `x <= 0` or `df < 1` gives 1.0; `df == 1` fails on the unassigned `y` (UnboundLocalError); `df == 2` gives `ex(-x/2)`; otherwise the only failure is the division by `sqrt(x/2) == 0` |
| Ent.ProbabilityEvenSmall | ent.py:142-167 | for even `df > 2` and `x/2 <= 20` the clamp never applies and the result is `exp(-x/2)` times the exponential series truncated after the power `df/2 - 1` |
| Ent.ProbabilityEvenLarge | ent.py:142-158 | for even `df > 2` and `x/2 > 20` the start `ex(-a)` is clamped to 0 and only the loop's clamped terms remain |
| Ports.CounterAgainstFullTable | ent_without_numpy.py:152-166 | on the same data the two Counter statistics agree; they fall short of `ent.py`'s by `e` for every absent byte value; on empty data `ent.py` divides by zero where they return 0 |
| Ports.CorrelationGap | ent_decimal.py:172-192 | the two correlations fail on the same data and otherwise differ by `n*d[n-1]*d[0]/D`, the wrap-around term that the padding drops |
| Ports.MonteCarloSamePoints | ent_decimal.py:258-282 | from 6 bytes on, both estimates count the same points in the circle; they divide by `(len(d)//3 + 1)//2` and by `len(d)//6`, and they agree when `len(d)//3` is even |
| Base.SumNonneg | ent_without_numpy.py:165 | non-negative counts have a non-negative total, 0 only when every count is 0 |
| Base.SumAppend | ent_without_numpy.py:165 | the total of a concatenation is the sum of the totals |

## Left out

- `entropy` in all three ports: a sum of floating-point or Decimal logarithms.
- `_poz` and the numerics of `pochisq`: `exp`, `log`, `sqrt`, `_poz` and `NormalDist().cdf` are opaque function values of the `Numerics` parameter, so accuracy and overflow of the floating-point library are not modelled.
- `pochisq` of `ent_decimal.py`: it mixes floats with Decimals, which the exact model cannot represent.
- I/O: `main`, `textout`, `terseout`, argument parsing, printing, and the file reading of `readdata`. Only the counting half of `ent.py`'s `readdata` is modelled.
- Floating-point and Decimal rounding: every result is the exact rational value that the source rounds. The chi-square statistics and the `pochisq` loops round at every operation. `correlation` and `monte_carlo` round once, in their final division.
- Counting.CounterValues: lists the values of a Counter in ascending byte order, where Python lists them in first-occurrence order. Every statistic modelled over them is a sum, so the order does not change any result.
- `pearsonchisquare` of `ent.py` with a non-bytearray `d`: the conversion `bytearray(d)` is taken as given, and the data is modelled as a sequence of bytes.
- The tests: they read a large data file and compare floating-point results with tolerances.

## Findings

| source | as written | input that shows it | evidently intended | confidence | as-written member | corrected member |
|---|---|---|---|---|---|---|
| ent_without_numpy.py:180 | `d[1:] + bytes(d[0])` appends `d[0]` zero bytes, so `t1` leaves out the wrap-around product `d[n-1]*d[0]` and the coefficient can leave [-1, 1] | the bytes `[2, 1]` give `(2*2 - 9)/1 = -5` | the rotation `d[1:] + bytes([d[0]])`, which keeps the coefficient in [-1, 1] | not executed; follows from the proved lemmas | EntWithoutNumpy.CorrelationOutOfRange | EntDecimal.Correlation |
| ent_without_numpy.py:267-272 | the estimate divides by `len(montex)`, which counts an unpaired trailing x coordinate as a point that can never be inside the circle | nine zero bytes make one point, inside the circle, and an unpaired x; the estimate is `4*1/2 = 2` | the number of points as denominator, which gives 4 here and agrees with the other port | not executed; follows from the proved lemmas | EntWithoutNumpy.NineZeroBytes | EntDecimal.MonteCarlo |
| ent.py:146-148 | `even(y, ...)` reads `y` before the parity is known, and `y` is assigned only when `df > 1` | `pochisq(1.0, 1)` raises UnboundLocalError | a lazy choice, as in `ent_without_numpy.py:230`, giving `2 * _poz(-sqrt(x))` for `df == 1` | not executed; follows from the proved lemmas | Ent.ProbabilityGuard | EntWithoutNumpy.ProbabilityGuard |
