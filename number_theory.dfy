/** Divisibility and the greatest common divisor, defined here rather than
    trusted from a library: the generator filter of the enumeration asks
    for gcd(m, n) = 1. */
module NumberTheory {

  /** d is a positive divisor of x. */
  predicate Divides(d: int, x: int) {
    d > 0 && x % d == 0
  }

  /** A multiple d * q of a positive d is divisible by d. */
  lemma MultipleDivisible(d: int, x: int, q: int)
    requires d > 0 && x == d * q
    ensures Divides(d, x)
  {
    var qq, r := x / d, x % d;
    assert d * (q - qq) == r;
    // 0 <= r < d leaves no room for a nonzero multiple of d
    if q - qq >= 1 {
      assert false;
    } else if q - qq <= -1 {
      assert false;
    }
  }

  /** A positive number smaller than d is not a multiple of d. */
  lemma SmallNotDivisible(d: int, x: int)
    requires 0 < x < d
    ensures !Divides(d, x)
  {
  }

  /** A positive multiple of d is d times a positive quotient. */
  lemma PositiveQuotient(d: int, x: int)
    requires Divides(d, x) && x > 0
    ensures x == d * (x / d) && x / d > 0
  {
  }

  /** Common divisors survive sums and differences. */
  lemma DividesSumAndDifference(d: int, x: int, y: int)
    requires Divides(d, x) && Divides(d, y)
    ensures Divides(d, x + y) && Divides(d, x - y)
  {
    var qx, qy := x / d, y / d;
    assert x == d * qx && y == d * qy;
    assert x + y == d * (qx + qy);
    assert x - y == d * (qx - qy);
    MultipleDivisible(d, x + y, qx + qy);
    MultipleDivisible(d, x - y, qx - qy);
  }

  /** Consecutive multiples of d are at least d apart. */
  lemma NextMultiple(d: int, p: int, x: int)
    requires Divides(d, p) && Divides(d, x) && p < x
    ensures p + d <= x
  {
    DividesSumAndDifference(d, x, p);
    if x - p < d {
      SmallNotDivisible(d, x - p);
    }
  }

  /** A divisor of x divides every multiple of x. */
  lemma DividesMultiple(d: int, x: int, k: int)
    requires Divides(d, x)
    ensures Divides(d, x * k)
  {
    var q := x / d;
    assert x * k == d * q * k;
    MultipleDivisible(d, x * k, q * k);
  }

  /** The greatest common divisor by Euclid's remainder algorithm, as
      Python's math.gcd computes it for non-negative arguments. Its
      properties are stated by the lemmas below rather than by its own
      contract. */
  function Gcd(a: nat, b: nat): nat
    decreases b
  {
    if b == 0 then a else Gcd(b, a % b)
  }

  /** Gcd(a, b) is a common divisor of a and b. */
  lemma {:induction false} GcdDivides(a: nat, b: nat)
    requires a > 0 || b > 0
    ensures Divides(Gcd(a, b), a) && Divides(Gcd(a, b), b)
    decreases b
  {
    if b == 0 {
      MultipleDivisible(a, a, 1);
      MultipleDivisible(a, 0, 0);
    } else {
      var g := Gcd(b, a % b);
      GcdDivides(b, a % b);
      DividesMultiple(g, b, a / b);
      DividesSumAndDifference(g, b * (a / b), a % b);
      assert b * (a / b) + a % b == a;
    }
  }

  /** Every common divisor of a and b divides Gcd(a, b), so Gcd is the
      greatest of them. */
  lemma {:induction false} GcdGreatest(a: nat, b: nat, d: int)
    requires Divides(d, a) && Divides(d, b)
    ensures Divides(d, Gcd(a, b))
    decreases b
  {
    if b != 0 {
      DividesMultiple(d, b, a / b);
      DividesSumAndDifference(d, a, b * (a / b));
      assert a - b * (a / b) == a % b;
      GcdGreatest(b, a % b, d);
    }
  }

  /** For positive a and b, Gcd(a, b) = 1 exactly when 1 is the only
      positive common divisor: the meaning of the coprimality filter on
      generator pairs. */
  lemma CoprimeIffNoCommonFactor(a: nat, b: nat)
    requires a > 0 && b > 0
    ensures Gcd(a, b) == 1 <==> forall d :: Divides(d, a) && Divides(d, b) ==> d == 1
  {
    GcdDivides(a, b);
    if Gcd(a, b) == 1 {
      forall d | Divides(d, a) && Divides(d, b) ensures d == 1 {
        GcdGreatest(a, b, d);
        if d > 1 {
          SmallNotDivisible(d, 1);
        }
      }
    }
  }
}
