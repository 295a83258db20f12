# Singular integer right triangles (Project Euler 75)

This is a Dafny model of `main(p_max)` from `main.py`. The function counts
the wire lengths `p <= p_max` that bend into exactly one integer-sided right
triangle. It works in three steps:

- It enumerates generator pairs `(m, n)` with `m > n >= 1`, `m + n` odd and
  `gcd(m, n) = 1`.
- It turns each pair into a primitive triple with Euclid's formula
  `a = m^2 - n^2`, `b = 2mn`, `c = m^2 + n^2`.
- It walks every multiple of the primitive perimeter up to `p_max`. For each
  multiple it increments a per-perimeter tally, and it keeps a running count
  of the perimeters whose tally is exactly 1.

The project has five modules:

- `NumberTheory`: divisibility, plus a greatest common divisor defined in
  Dafny and proved to be one.
- `Euclid`: triangles, the generator filter, Euclid's formula and its
  perimeter, and an integer form of the search bound on `m`.
- `Tallies`: the specification. `Tally(p)` is the number of filtered pairs
  whose primitive perimeter divides `p`. `SingularUpTo(pMax)` is the number
  of `p` in `1..pMax` with tally 1. `Singles` is the same count over a
  concrete tally map. The lemmas here relate these functions to each other.
- `SingularTriangles`: the enumeration itself, written as methods with loops.
  - The `defaultdict` is a `map<int, nat>` read with default 0.
  - `count` is an integer.
  - Both are local state threaded through the methods, exactly as the
    locals of `main` are.
  - `CountSingularPerimeters` is proved to return
    `Ok(SingularUpTo(pMax))`, or `Err(InvalidArgument)` when `pMax <= 0`.
- `WorkedExamples`: the examples of the header comment, derived from the
  specification.

## Model

| member | source | states |
|---|---|---|
| `SingularTriangles.CountSingularPerimeters` | main.py:30-86 | A bound `p_max <= 0` is rejected with `InvalidArgument`, the failed assertion of line 44. Otherwise the result is the number of perimeters in `1..p_max` whose tally is exactly 1. |
| `SingularTriangles.EnumerateRow` | main.py:68-84 | One pass of the `n` loop for a fixed `m`. Each `p` in `1..p_max` gains exactly the number of pairs `(m, n)`, `n < m`, that pass the filter and whose primitive perimeter divides `p`. Nothing outside `1..p_max` changes. The running count still equals the number of perimeters with tally 1. |
| `SingularTriangles.WalkMultiples` | main.py:76-84 | The `while p <= p_max` loop adds exactly 1 to the tally of every positive multiple of `p_primitive` that is at most `p_max`, and leaves every other key unchanged. The running count stays equal to the number of perimeters with tally 1. |
| `SingularTriangles.Record` | main.py:78-83 | One increment raises `triangle_counts[q]` by exactly 1 and changes no other key. After the 1/2 branch, `count` equals the number of perimeters with tally 1, which lies in `0..p_max`. |
| `Tallies.SinglesAfterIncrement` | main.py:78-83 | Incrementing one tally moves the number of singular perimeters by +1 when it goes 0 to 1, by -1 when it goes 1 to 2, and by 0 otherwise: the branch on `pc`. |
| `Tallies.SinglesOfEmpty` | main.py:63-64 | The empty tally has no singular perimeter, so `count = 0` starts out right. |
| `Tallies.SinglesSameOnRange` | main.py:78 | Keys outside `1..hi` and equal keys do not affect the singular count. This is what makes "nothing else changes" sufficient. |
| `Tallies.SinglesMatchSpec` | main.py:86 | A map holding `Tally(p)` for every `p` in `1..p_max` has exactly `SingularUpTo(p_max)` singular perimeters: the returned `count` is the answer. |
| `Tallies.Singles` | main.py:79-83 | The number of perimeters with tally 1 in `1..hi` is at most `hi`. |
| `Tallies.SingularUpTo` | main.py:30-39 | The answer for `p_max` is between 0 and `p_max`. |
| `Tallies.SingularMonotone` | main.py:30-39 | The answer never decreases as `p_max` grows. |
| `Tallies.TallyStable` | main.py:66-67 | Rows `m` at or beyond the search bound add nothing to the tally of `p`. So enumerating `m` up to any larger bound, in particular that of `p_max`, yields `Tally(p)`. |
| `Tallies.RowBeyondBound` | main.py:67-69 | A row with `2m^2 >= p` contributes no pair to the tally of `p`. |
| `Tallies.TallyCountsGenerators` | main.py:67-84 | The tally of `p` equals the size of the set of all filtered pairs `(m, n)` whose primitive perimeter divides `p`, with no search bound involved. |
| `Tallies.RowSetCount` | main.py:68-69 | The row tally counts exactly the pairs of row `m` below `n` that generate `p`. |
| `Tallies.GeneratorYieldsTriangle` | main.py:55-56 | Every counted pair, with its primitive triple scaled by `p / p_primitive`, is a genuine right triangle of perimeter `p`. |
| `Tallies.NoTriangleBelowTwelve` | main.py:5-7 | No perimeter below 12 has a triangle. |
| `Euclid.EuclidTriple` | main.py:70-74 | For `m > n >= 1`, Euclid's formula gives `a, b, c > 0` with `a^2 + b^2 = c^2`. |
| `Euclid.EuclidIdentity` | main.py:70-74 | `m^2 > n^2`, `2mn > 0` and `(m^2 - n^2)^2 + (2mn)^2 = (m^2 + n^2)^2`. |
| `Euclid.PrimitivePerimeter` | main.py:70-75 | `p_primitive = a + b + c = 2m(m + n)`. It is even, strictly greater than `2m^2`, and at least 12. |
| `Euclid.PerimeterArithmetic` | main.py:75 | The sum of the three sides of Euclid's formula equals `2m(m + n)` and is even, above `2m^2` and at least 12. |
| `Euclid.ScaledRightTriangle` | main.py:55-56 | A multiple `k` of a right triangle is a right triangle with `k` times the perimeter. |
| `Euclid.MaxGenerator` | main.py:66 | The integer `floor(sqrt(p / 2))`: the largest `r` with `2r^2 <= p < 2(r + 1)^2`. |
| `Euclid.SearchBound` | main.py:66 | `m_max = floor(sqrt(p_max / 2)) + 1` is at least 1, and every `m < m_max` has `2m^2 <= p_max`. |
| `Euclid.SearchBoundSufficient` | main.py:58-60 | Any pair whose primitive perimeter is at most `p_max` has `2m^2 < p_max` and `m < m_max`. The search bound skips no pair that could reach `p_max`. |
| `Euclid.BeyondSearchBound` | main.py:66-67 | Every `m >= m_max` has `2m^2 > p_max`. |
| `Euclid.SearchBoundMonotone` | main.py:66 | A larger bound never has a smaller `m_max`. |
| `NumberTheory.GcdDivides` | main.py:69 | `gcd(a, b)` divides both `a` and `b`. |
| `NumberTheory.GcdGreatest` | main.py:69 | Every common divisor of `a` and `b` divides `gcd(a, b)`. |
| `NumberTheory.CoprimeIffNoCommonFactor` | main.py:69 | For positive `m, n`, `gcd(m, n) == 1` holds exactly when 1 is their only positive common divisor. |
| `NumberTheory.NextMultiple` | main.py:84 | Stepping `p += p_primitive` skips no multiple of `p_primitive`: consecutive multiples are at least `p_primitive` apart. |
| `WorkedExamples.TallyUpTo48` | main.py:5-14 | For `p` in `1..48`, the tally of `p` counts which of 12, 30 and 40 divide it. |
| `WorkedExamples.HeaderTallies` | main.py:5-17 | 12, 24, 30, 36, 40 and 48 have tally 1. 20 has tally 0. |
| `WorkedExamples.Row2Of120` | main.py:21 | Pair (2, 1), triangle (3, 4, 5), reaches 120. |
| `WorkedExamples.Row3Of120` | main.py:21 | Row 3 reaches 120 once, through (3, 2), triangle (5, 12, 13). |
| `WorkedExamples.Row4Of120` | main.py:21 | Row 4 reaches 120 once, through (4, 1), triangle (8, 15, 17). |
| `WorkedExamples.Row5Of120` | main.py:19 | No pair of row 5 reaches 120. |
| `WorkedExamples.Row6Of120` | main.py:19 | No pair of row 6 reaches 120. |
| `WorkedExamples.Row7Of120` | main.py:19 | No pair of row 7 reaches 120. |
| `WorkedExamples.TallyOf120` | main.py:19-21 | 120 has exactly three triangles. |
| `WorkedExamples.SingularPerimetersUpTo48` | main.py:5-16 | The perimeters in `1..48` with exactly one triangle are 12, 24, 30, 36, 40 and 48. |
| `WorkedExamples.SingularUpTo48` | main.py:5-16 | For every bound `k <= 48`, the answer counts those of the six that are at most `k`. |
| `WorkedExamples.HeaderAnswers` | main.py:5-16 | `main(11) = 0`, `main(12) = 1` and `main(48) = 6`. |

## Left out

- The interactive wrapper (main.py:89-93): it reads the bound from standard input and prints the answer. It is I/O only.
- The type test `type(p_max) == int` of line 44: a Dafny `int` argument makes it hold always. Only `p_max > 0` is modelled, as the `InvalidArgument` error path.
- Floating point: line 66 computes `floor(sqrt(p_max / 2)) + 1` in floating point. `SearchBound` computes the same value in exact integer arithmetic. Rounding of `sqrt` for very large `p_max` is not modelled.
- `math.gcd` is replaced by `NumberTheory.Gcd`, the same remainder algorithm, whose correctness is proved here.
- `NumberTheory.Gcd`: carries no contract of its own; its properties are the lemmas `GcdDivides`, `GcdGreatest` and `CoprimeIffNoCommonFactor`.
- `Tallies.Tally`: counts generator pairs and their multiples, as the loops do. The model does not prove that this equals the number of distinct integer right triangles of perimeter `p`, which needs the uniqueness of Euclid's parametrisation. One direction is proved: every counted pair gives a right triangle of perimeter `p` (`GeneratorYieldsTriangle`).
- `Euclid.EuclidTriple`: the triple is proved right-angled but not primitive (gcd(a, b, c) = 1).
- The answer for the problem's own bound, 1,500,000, is not derived.
