/** What the enumeration computes, stated as functions: how many generator
    pairs reach each perimeter (the tally), and how many perimeters up to a
    bound are reached exactly once (the singular count). */
module Tallies {
  import opened NumberTheory
  import opened Euclid

  /** A tally read with default 0 for a perimeter never incremented. */
  function Get(tally: map<int, nat>, p: int): nat {
    if p in tally then tally[p] else 0
  }

  /** The pair (m, n) contributes one triangle to perimeter p: it passes the
      generator filter and p is a positive multiple of its primitive
      perimeter. */
  predicate Generates(m: int, n: int, p: int) {
    IsGeneratorPair(m, n) && p > 0 && Divides(PrimitivePerimeter(m, n), p)
  }

  /** Number of n' with 1 <= n' < n such that (m, n') generates p: the part
      of row m the enumeration has visited before reaching n. */
  function RowTally(p: int, m: int, n: int): nat
    decreases n
  {
    if n <= 1 then 0
    else RowTally(p, m, n - 1) + (if Generates(m, n - 1, p) then 1 else 0)
  }

  /** Number of pairs (m', n') with 2 <= m' < m and 1 <= n' < m' that
      generate p: the rows the enumeration has finished before row m. */
  function GridTally(p: int, m: int): nat
    decreases m
  {
    if m <= 2 then 0 else GridTally(p, m - 1) + RowTally(p, m - 1, m - 1)
  }

  /** The tally of perimeter p once every row below the search bound of p
      has been enumerated. */
  function Tally(p: int): nat {
    if p < 1 then 0 else GridTally(p, SearchBound(p))
  }

  /** The pairs of row m, below n, that generate p. */
  ghost function RowSet(p: int, m: int, n: int): set<(int, int)> {
    set j | 1 <= j < n && Generates(m, j, p) :: (m, j)
  }

  /** The pairs of the rows below m that generate p. */
  ghost function GridSet(p: int, m: int): set<(int, int)> {
    set i, j | 1 <= j < i < m && Generates(i, j, p) :: (i, j)
  }

  /** Every generator pair whose primitive triple, scaled, has perimeter p
      (its m is below p because its primitive perimeter exceeds m). */
  ghost function GeneratorsOf(p: int): set<(int, int)> {
    set m, n | 1 <= n < m <= p && Generates(m, n, p) :: (m, n)
  }

  lemma {:induction false} RowSetCount(p: int, m: int, n: int)
    ensures |RowSet(p, m, n)| == RowTally(p, m, n)
    decreases n
  {
    if n <= 1 {
      assert RowSet(p, m, n) == {};
    } else {
      RowSetCount(p, m, n - 1);
      var extra := if Generates(m, n - 1, p) then {(m, n - 1)} else {};
      assert RowSet(p, m, n) == RowSet(p, m, n - 1) + extra;
      assert (m, n - 1) !in RowSet(p, m, n - 1);
    }
  }

  lemma {:induction false} GridSetCount(p: int, m: int)
    ensures |GridSet(p, m)| == GridTally(p, m)
    decreases m
  {
    if m <= 2 {
      assert GridSet(p, m) == {};
    } else {
      GridSetCount(p, m - 1);
      RowSetCount(p, m - 1, m - 1);
      var below, row := GridSet(p, m - 1), RowSet(p, m - 1, m - 1);
      forall x | x in GridSet(p, m) ensures x in below + row {
        if x.0 < m - 1 {
          assert x in below;
        } else {
          assert x in row;
        }
      }
      assert GridSet(p, m) == below + row;
      forall x | x in below ensures x !in row {
        assert x.0 < m - 1;
      }
      assert below * row == {};
    }
  }

  /** A row whose m has 2m^2 >= p adds nothing to the tally of p: its
      primitive perimeters all exceed p. */
  lemma {:induction false} RowBeyondBound(p: int, m: int, n: int)
    requires p >= 1 && 2 * (m * m) >= p
    ensures RowTally(p, m, n) == 0
    decreases n
  {
    if n > 1 {
      RowBeyondBound(p, m, n - 1);
      if m > n - 1 >= 1 {
        SmallNotDivisible(PrimitivePerimeter(m, n - 1), p);
      }
    }
  }

  /** Enumerating rows beyond the search bound of p does not change its
      tally, so any bound at least SearchBound(p) gives Tally(p). */
  lemma {:induction false} TallyStable(p: int, bound: int)
    requires p >= 1 && bound >= SearchBound(p)
    ensures GridTally(p, bound) == Tally(p)
    decreases bound
  {
    if bound > SearchBound(p) {
      calc {
        GridTally(p, bound);
        GridTally(p, bound - 1) + RowTally(p, bound - 1, bound - 1);
        { BeyondSearchBound(p, bound - 1);
          RowBeyondBound(p, bound - 1, bound - 1); }
        GridTally(p, bound - 1);
        { TallyStable(p, bound - 1); }
        Tally(p);
      }
    }
  }

  /** The tally of p is the number of generator pairs whose primitive
      perimeter divides p, with no reference to a search bound. */
  lemma TallyCountsGenerators(p: int)
    ensures Tally(p) == |GeneratorsOf(p)|
  {
    if p < 1 {
      assert GeneratorsOf(p) == {};
    } else {
      var r := MaxGenerator(p);
      assert r <= p by {
        if r >= 1 {
          assert r <= r * r;
        }
      }
      TallyStable(p, p + 1);
      GridSetCount(p, p + 1);
      assert GeneratorsOf(p) == GridSet(p, p + 1);
    }
  }

  /** Each counted pair stands for a genuine right triangle of perimeter p:
      its primitive triple scaled by p / p_primitive. */
  lemma GeneratorYieldsTriangle(m: int, n: int, p: int)
    requires (m, n) in GeneratorsOf(p)
    ensures var pp := PrimitivePerimeter(m, n);
      var t := Scale(EuclidTriple(m, n), p / pp);
      IsRightTriangle(t) && Perimeter(t) == p
  {
    var pp := PrimitivePerimeter(m, n);
    var k := p / pp;
    PositiveQuotient(pp, p);
    var e := EuclidTriple(m, n);
    assert Perimeter(e) == pp;
    ScaledRightTriangle(e, k);
    assert k * pp == p;
  }

  /** No right triangle has perimeter below 12. */
  lemma NoTriangleBelowTwelve(p: int)
    requires p < 12
    ensures Tally(p) == 0
  {
    TallyCountsGenerators(p);
    forall mn | mn in GeneratorsOf(p) ensures false {
      SmallNotDivisible(PrimitivePerimeter(mn.0, mn.1), p);
    }
    assert GeneratorsOf(p) == {};
  }

  /** Number of p in 1..hi whose tally in the map is exactly 1. */
  function Singles(tally: map<int, nat>, hi: int): (r: nat)
    ensures r <= if hi < 0 then 0 else hi
    decreases hi
  {
    if hi < 1 then 0
    else Singles(tally, hi - 1) + (if Get(tally, hi) == 1 then 1 else 0)
  }

  /** The answer for bound pMax: the number of perimeters p in 1..pMax that
      exactly one triangle reaches. */
  function SingularUpTo(pMax: int): (r: nat)
    ensures r <= if pMax < 0 then 0 else pMax
    decreases pMax
  {
    if pMax < 1 then 0
    else SingularUpTo(pMax - 1) + (if Tally(pMax) == 1 then 1 else 0)
  }

  /** Before any increment no perimeter is singular. */
  lemma {:induction false} SinglesOfEmpty(hi: int)
    ensures Singles(map[], hi) == 0
    decreases hi
  {
    if hi >= 1 {
      SinglesOfEmpty(hi - 1);
    }
  }

  /** Two tallies that agree on 1..hi have the same singular count. */
  lemma {:induction false} SinglesSameOnRange(t1: map<int, nat>, t2: map<int, nat>, hi: int)
    requires forall p :: 1 <= p <= hi ==> Get(t1, p) == Get(t2, p)
    ensures Singles(t1, hi) == Singles(t2, hi)
    decreases hi
  {
    if hi >= 1 {
      SinglesSameOnRange(t1, t2, hi - 1);
    }
  }

  /** Incrementing the tally of one perimeter q in 1..hi moves the singular
      count by the state machine 0 -> 1 (+1), 1 -> 2 (-1), otherwise 0. */
  lemma {:induction false} SinglesAfterIncrement(t: map<int, nat>, q: int, hi: int)
    requires 1 <= q <= hi
    ensures Singles(t[q := Get(t, q) + 1], hi) ==
      Singles(t, hi) + (if Get(t, q) == 0 then 1 else if Get(t, q) == 1 then -1 else 0)
    decreases hi
  {
    var t' := t[q := Get(t, q) + 1];
    if hi == q {
      SinglesSameOnRange(t, t', hi - 1);
    } else {
      SinglesAfterIncrement(t, q, hi - 1);
    }
  }

  /** A map holding the tally of every p in 1..hi has SingularUpTo(hi)
      singular perimeters. */
  lemma {:induction false} SinglesMatchSpec(t: map<int, nat>, hi: int)
    requires forall p :: 1 <= p <= hi ==> Get(t, p) == Tally(p)
    ensures Singles(t, hi) == SingularUpTo(hi)
    decreases hi
  {
    if hi >= 1 {
      SinglesMatchSpec(t, hi - 1);
    }
  }

  /** The answer never decreases as the bound grows: the tally of a
      perimeter does not depend on the bound. */
  lemma {:induction false} SingularMonotone(lo: int, hi: int)
    requires lo <= hi
    ensures SingularUpTo(lo) <= SingularUpTo(hi)
    decreases hi - lo
  {
    if lo < hi {
      SingularMonotone(lo, hi - 1);
      assert SingularUpTo(hi - 1) <= SingularUpTo(hi);
    }
  }
}
