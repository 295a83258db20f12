/** The enumeration itself, main(p_max): generator pairs (m, n) in order,
    every multiple of each primitive perimeter up to p_max, and a tally per
    perimeter with a running count of the perimeters whose tally is 1. */
module SingularTriangles {
  import opened NumberTheory
  import opened Euclid
  import opened Tallies

  /** The one failure of main: a bound that is not a positive integer. */
  datatype Error = InvalidArgument

  datatype Result<T> = Ok(value: T) | Err(error: Error)

  /** One step of the inner loop: triangle_counts[q] += 1, then the running
      count moves when the tally of q becomes 1 (one more singular
      perimeter) or 2 (one fewer). */
  method Record(tally: map<int, nat>, count: int, q: int, pMax: int)
    returns (tally': map<int, nat>, count': int)
    requires 1 <= q <= pMax
    requires count == Singles(tally, pMax)
    ensures Get(tally', q) == Get(tally, q) + 1
    ensures forall p :: p != q ==> Get(tally', p) == Get(tally, p)
    ensures count' == Singles(tally', pMax)
    ensures 0 <= count' <= pMax
  {
    tally' := tally[q := Get(tally, q) + 1];
    var pc := tally'[q];
    count' := count;
    if pc == 1 {
      count' := count + 1;
    } else if pc == 2 {
      count' := count - 1;
    }
    SinglesAfterIncrement(tally, q, pMax);
  }

  /** The inner while loop: walks p = pPrim, 2 pPrim, ... while p <= pMax and
      records each. Exactly the multiples of pPrim in 1..pMax gain one. */
  method WalkMultiples(tally: map<int, nat>, count: int, pPrim: int, pMax: int)
    returns (tally': map<int, nat>, count': int)
    requires pPrim > 0
    requires count == Singles(tally, pMax)
    ensures forall p ::
              Get(tally', p) == Get(tally, p) + (if 1 <= p <= pMax && Divides(pPrim, p) then 1 else 0)
    ensures count' == Singles(tally', pMax)
  {
    tally', count' := tally, count;
    var p := pPrim;
    MultipleDivisible(pPrim, p, 1);
    while p <= pMax
      invariant pPrim <= p && Divides(pPrim, p)
      invariant count' == Singles(tally', pMax)
      invariant forall x ::
                  Get(tally', x) == Get(tally, x) + (if 1 <= x < p && x <= pMax && Divides(pPrim, x) then 1 else 0)
      decreases pMax - p
    {
      tally', count' := Record(tally', count', p, pMax);
      forall x | Divides(pPrim, x) && p < x ensures p + pPrim <= x {
        NextMultiple(pPrim, p, x);
      }
      DividesSumAndDifference(pPrim, p, pPrim);
      MultipleDivisible(pPrim, pPrim, 1);
      p := p + pPrim;
    }
  }

  /** One pass of the outer for loop: n runs over 1..m - 1, and every pair
      (m, n) that passes the filter walks the multiples of its primitive
      perimeter. Each p in 1..pMax gains the number of such pairs that
      generate it. */
  method EnumerateRow(tally: map<int, nat>, count: int, m: int, pMax: int)
    returns (tally': map<int, nat>, count': int)
    requires count == Singles(tally, pMax)
    ensures forall p ::
              Get(tally', p) == Get(tally, p) + (if 1 <= p <= pMax then RowTally(p, m, m) else 0)
    ensures count' == Singles(tally', pMax)
  {
    tally', count' := tally, count;
    var n := 1;
    while n < m
      invariant n >= 1 && (n <= m || n == 1)
      invariant count' == Singles(tally', pMax)
      invariant forall p ::
                  Get(tally', p) == Get(tally, p) + (if 1 <= p <= pMax then RowTally(p, m, n) else 0)
    {
      if (m + n) % 2 == 1 && Gcd(m, n) == 1 {
        var pPrim := PrimitivePerimeter(m, n);
        tally', count' := WalkMultiples(tally', count', pPrim, pMax);
      }
      n := n + 1;
    }
  }

  /** main(p_max): the number of perimeters p <= p_max that exactly one
      integer right triangle has, or InvalidArgument when p_max <= 0. */
  method CountSingularPerimeters(pMax: int) returns (r: Result<nat>)
    ensures pMax <= 0 ==> r == Err(InvalidArgument)
    ensures pMax > 0 ==> r == Ok(SingularUpTo(pMax))
  {
    if pMax <= 0 {
      return Err(InvalidArgument);
    }
    var tally: map<int, nat> := map[];
    var count := 0;
    SinglesOfEmpty(pMax);
    var mMax := SearchBound(pMax);
    var m := 2;
    while m < mMax
      invariant 2 <= m && (m <= mMax || m == 2)
      invariant count == Singles(tally, pMax)
      invariant forall p :: Get(tally, p) == if 1 <= p <= pMax then GridTally(p, m) else 0
    {
      tally, count := EnumerateRow(tally, count, m, pMax);
      m := m + 1;
    }
    forall p | 1 <= p <= pMax ensures Get(tally, p) == Tally(p) {
      SearchBoundMonotone(p, pMax);
      TallyStable(p, m);
    }
    SinglesMatchSpec(tally, pMax);
    return Ok(count);
  }
}
