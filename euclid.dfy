/** Integer right triangles and Euclid's formula, which turns a generator
    pair (m, n) into a primitive Pythagorean triple, together with the
    integer search bound on m. */
module Euclid {
  import opened NumberTheory

  /** A triangle given by its side lengths; c is meant as the hypotenuse. */
  datatype Triangle = Triangle(a: int, b: int, c: int)

  /** Positive sides with a^2 + b^2 = c^2. */
  predicate IsRightTriangle(t: Triangle) {
    t.a > 0 && t.b > 0 && t.c > 0 && t.a * t.a + t.b * t.b == t.c * t.c
  }

  /** The wire length the triangle is bent from. */
  function Perimeter(t: Triangle): int {
    t.a + t.b + t.c
  }

  /** The triangle with every side multiplied by k. */
  function Scale(t: Triangle, k: int): Triangle {
    Triangle(k * t.a, k * t.b, k * t.c)
  }

  /** The filter applied to every candidate pair: m > n >= 1, m + n odd and
      m, n coprime. */
  predicate IsGeneratorPair(m: int, n: int) {
    m > n >= 1 && (m + n) % 2 == 1 && Gcd(m, n) == 1
  }

  /** Euclid's formula: a = m^2 - n^2, b = 2mn, c = m^2 + n^2. For m > n >= 1
      it gives a genuine right triangle. */
  function EuclidTriple(m: int, n: int): (t: Triangle)
    requires m > n >= 1
    ensures IsRightTriangle(t)
  {
    EuclidIdentity(m, n);
    Triangle(m * m - n * n, 2 * m * n, m * m + n * n)
  }

  /** The algebra behind EuclidTriple: m^2 > n^2, 2mn > 0 and
      (m^2 - n^2)^2 + (2mn)^2 = (m^2 + n^2)^2. */
  lemma EuclidIdentity(m: int, n: int)
    requires m > n >= 1
    ensures m * m > n * n && 2 * m * n > 0
    ensures (m * m - n * n) * (m * m - n * n) + (2 * m * n) * (2 * m * n)
            == (m * m + n * n) * (m * m + n * n)
  {
    var x, y, z := m * m, n * n, m * n;
    assert x > z > y by {
      assert m * m > n * m > n * n;
    }
    assert 2 * m * n == 2 * z;
    assert z * z == x * y;
    assert (x - y) * (x - y) == x * x - 2 * (x * y) + y * y;
    assert (x + y) * (x + y) == x * x + 2 * (x * y) + y * y;
    assert (2 * z) * (2 * z) == 4 * (z * z);
  }

  /** The perimeter a + b + c of the primitive triple of (m, n). It equals
      2m(m + n), so it is even, exceeds 2m^2, and is at least 12. */
  function PrimitivePerimeter(m: int, n: int): (p: int)
    requires m > n >= 1
    ensures p == 2 * m * (m + n)
    ensures p % 2 == 0 && p > 2 * (m * m) && p >= 12
  {
    var t := EuclidTriple(m, n);
    PerimeterArithmetic(m, n);
    t.a + t.b + t.c
  }

  /** The algebra behind PrimitivePerimeter, on the sides of Euclid's
      formula written out. */
  lemma PerimeterArithmetic(m: int, n: int)
    requires m > n >= 1
    ensures var s := (m * m - n * n) + 2 * m * n + (m * m + n * n);
      s == 2 * m * (m + n) && s % 2 == 0 && s > 2 * (m * m) && s >= 12
  {
    var mm, mn := m * m, m * n;
    assert 2 * m * n == 2 * mn;
    assert 2 * m * (m + n) == 2 * mm + 2 * mn by {
      assert m * (m + n) == mm + mn;
    }
    assert mn >= m >= 2;
    assert mm >= 2 * m;
  }

  /** Scaling a right triangle by a positive factor keeps it right and
      scales its perimeter by the same factor. */
  lemma ScaledRightTriangle(t: Triangle, k: int)
    requires IsRightTriangle(t) && k > 0
    ensures IsRightTriangle(Scale(t, k))
    ensures Perimeter(Scale(t, k)) == k * Perimeter(t)
  {
    var s := Scale(t, k);
    assert s.a * s.a + s.b * s.b == k * k * (t.a * t.a + t.b * t.b);
    assert s.c * s.c == k * k * (t.c * t.c);
  }

  /** The largest m >= 0 with 2m^2 <= p, which is floor(sqrt(p / 2)) in
      exact arithmetic. */
  function MaxGenerator(p: int): (r: nat)
    requires p >= 0
    ensures 2 * (r * r) <= p < 2 * ((r + 1) * (r + 1))
  {
    MaxGeneratorFrom(p, 0)
  }

  /** Counts m upwards from a value already known to satisfy 2m^2 <= p. */
  function MaxGeneratorFrom(p: int, m: nat): (r: nat)
    requires 2 * (m * m) <= p
    ensures m <= r && 2 * (r * r) <= p < 2 * ((r + 1) * (r + 1))
    decreases p - 2 * (m * m)
  {
    if 2 * ((m + 1) * (m + 1)) > p then m else MaxGeneratorFrom(p, m + 1)
  }

  /** The exclusive upper bound of the loop over m: floor(sqrt(p_max / 2)) + 1. */
  function SearchBound(pMax: int): (mMax: nat)
    requires pMax >= 0
    ensures mMax >= 1
    ensures forall m :: 0 <= m < mMax ==> 2 * (m * m) <= pMax
  {
    var r := MaxGenerator(pMax);
    assert forall m :: 0 <= m < r + 1 ==> 2 * (m * m) <= pMax by {
      forall m | 0 <= m < r + 1 ensures 2 * (m * m) <= pMax {
        SquareMonotone(m, r);
      }
    }
    r + 1
  }

  /** Squaring is monotone on non-negative integers. */
  lemma SquareMonotone(x: int, y: int)
    requires 0 <= x <= y
    ensures x * x <= y * y
  {
    assert x * x <= x * y <= y * y;
  }

  /** The search bound skips no generator pair whose primitive perimeter
      fits: if 2m(m + n) <= p_max then m < SearchBound(p_max). */
  lemma SearchBoundSufficient(m: int, n: int, pMax: int)
    requires m > n >= 1 && PrimitivePerimeter(m, n) <= pMax
    ensures m < SearchBound(pMax)
    ensures 2 * (m * m) < pMax
  {
    var r := MaxGenerator(pMax);
    if m >= r + 1 {
      SquareMonotone(r + 1, m);
    }
  }

  /** Every m from the search bound on has 2m^2 > p_max. */
  lemma BeyondSearchBound(pMax: int, m: int)
    requires pMax >= 0 && m >= SearchBound(pMax)
    ensures 2 * (m * m) > pMax
  {
    var r := MaxGenerator(pMax);
    SquareMonotone(r + 1, m);
  }

  /** A larger bound never has a smaller search bound. */
  lemma SearchBoundMonotone(p: int, q: int)
    requires 0 <= p <= q
    ensures SearchBound(p) <= SearchBound(q)
  {
    var rp, rq := MaxGenerator(p), MaxGenerator(q);
    if rp > rq {
      SquareMonotone(rq + 1, rp);
    }
  }
}
