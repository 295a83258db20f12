/** The examples of the problem statement at the head of main.py: which
    perimeters up to 48 are singular, the three triangles of 120, and the
    answers for the bounds 11, 12 and 48. */
module WorkedExamples {
  import opened NumberTheory
  import opened Euclid
  import opened Tallies
  import opened SingularTriangles

  /** Up to 48 only the pairs (2, 1), (3, 2) and (4, 1) matter: their
      primitive triangles (3, 4, 5), (5, 12, 13) and (8, 15, 17) have
      perimeters 12, 30 and 40. */
  lemma TallyUpTo48(p: int)
    requires 1 <= p <= 48
    ensures Tally(p) == (if p % 12 == 0 then 1 else 0) + (if p % 30 == 0 then 1 else 0)
                        + (if p % 40 == 0 then 1 else 0)
  {
    assert SearchBound(48) == 5;
    SearchBoundMonotone(p, 48);
    TallyStable(p, 5);
    assert RowTally(p, 2, 2) == if p % 12 == 0 then 1 else 0;
    assert RowTally(p, 3, 3) == if p % 30 == 0 then 1 else 0;
    assert RowTally(p, 4, 4) == if p % 40 == 0 then 1 else 0;
  }

  /** 12, 24, 30, 36, 40 and 48 cm each bend into exactly one integer right
      triangle; 20 cm into none. */
  lemma HeaderTallies()
    ensures Tally(12) == 1 && Tally(24) == 1 && Tally(30) == 1
    ensures Tally(36) == 1 && Tally(40) == 1 && Tally(48) == 1
    ensures Tally(20) == 0
  {
    TallyUpTo48(12);
    TallyUpTo48(24);
    TallyUpTo48(30);
    TallyUpTo48(36);
    TallyUpTo48(40);
    TallyUpTo48(48);
    TallyUpTo48(20);
  }

  /** (2, 1) is the only pair of row 2; its perimeter 12 divides 120. */
  lemma Row2Of120()
    ensures RowTally(120, 2, 2) == 1
  {
    assert Generates(2, 1, 120) by {
      assert Gcd(2, 1) == 1;
      assert PrimitivePerimeter(2, 1) == 12;
    }
  }

  /** Row 3: (3, 1) fails the parity filter, (3, 2) has perimeter 30. */
  lemma Row3Of120()
    ensures RowTally(120, 3, 3) == 1
  {
    assert !IsGeneratorPair(3, 1);
    assert Generates(3, 2, 120) by {
      assert Gcd(3, 2) == 1;
      assert PrimitivePerimeter(3, 2) == 30;
    }
  }

  /** Row 4: (4, 1) has perimeter 40, (4, 2) fails the parity filter and
      the perimeter 56 of (4, 3) does not divide 120. */
  lemma Row4Of120()
    ensures RowTally(120, 4, 4) == 1
  {
    assert Generates(4, 1, 120) by {
      assert Gcd(4, 1) == 1;
      assert PrimitivePerimeter(4, 1) == 40;
    }
    assert !IsGeneratorPair(4, 2);
    assert PrimitivePerimeter(4, 3) == 56;
    assert RowTally(120, 4, 2) == 1;
    assert RowTally(120, 4, 3) == 1;
  }

  /** Row 5: the perimeters 70 and 90 of (5, 2) and (5, 4) miss 120. */
  lemma Row5Of120()
    ensures RowTally(120, 5, 5) == 0
  {
    assert !IsGeneratorPair(5, 1);
    assert PrimitivePerimeter(5, 2) == 70;
    assert !IsGeneratorPair(5, 3);
    assert PrimitivePerimeter(5, 4) == 90;
    assert RowTally(120, 5, 3) == 0;
    assert RowTally(120, 5, 4) == 0;
  }

  /** Row 6: (6, 3) has the common factor 3, the perimeters 84 and 132 of
      (6, 1) and (6, 5) miss 120, the rest fail the parity filter. */
  lemma Row6Of120()
    ensures RowTally(120, 6, 6) == 0
  {
    assert PrimitivePerimeter(6, 1) == 84;
    assert !IsGeneratorPair(6, 2);
    assert !IsGeneratorPair(6, 3) by {
      assert Gcd(6, 3) == 3;
    }
    assert !IsGeneratorPair(6, 4);
    assert PrimitivePerimeter(6, 5) == 132;
    assert RowTally(120, 6, 3) == 0;
    assert RowTally(120, 6, 4) == 0;
    assert RowTally(120, 6, 5) == 0;
  }

  /** Row 7: every pair that passes the parity filter has a perimeter
      above 120. */
  lemma Row7Of120()
    ensures RowTally(120, 7, 7) == 0
  {
    forall n | 1 <= n < 7 ensures !Generates(7, n, 120) {
      if (7 + n) % 2 == 1 {
        SmallNotDivisible(PrimitivePerimeter(7, n), 120);
      }
    }
    assert RowTally(120, 7, 3) == 0;
    assert RowTally(120, 7, 5) == 0;
  }

  /** 120 cm bends into three triangles: (30, 40, 50), (20, 48, 52) and
      (24, 45, 51), from the pairs (2, 1), (3, 2) and (4, 1). */
  lemma TallyOf120()
    ensures Tally(120) == 3
  {
    assert SearchBound(120) == 8;
    Row2Of120();
    Row3Of120();
    Row4Of120();
    Row5Of120();
    Row6Of120();
    Row7Of120();
    assert GridTally(120, 5) == 3;
    assert GridTally(120, 8) == 3;
  }

  /** Which of the perimeters 1..48 the three primitive perimeters 12, 30
      and 40 reach exactly once. */
  lemma SingularBelow48(p: int)
    requires 1 <= p <= 48
    ensures ((if p % 12 == 0 then 1 else 0) + (if p % 30 == 0 then 1 else 0)
             + (if p % 40 == 0 then 1 else 0) == 1)
            <==> p == 12 || p == 24 || p == 30 || p == 36 || p == 40 || p == 48
  {
  }

  /** The perimeters up to 48 that exactly one triangle has are those of
      the header. */
  lemma SingularPerimetersUpTo48(p: int)
    requires 1 <= p <= 48
    ensures Tally(p) == 1 <==> p == 12 || p == 24 || p == 30 || p == 36 || p == 40 || p == 48
  {
    TallyUpTo48(p);
    SingularBelow48(p);
  }

  /** For bounds up to 48 the answer counts the six singular perimeters
      of the header that do not exceed the bound. */
  lemma {:induction false} SingularUpTo48(k: int)
    requires 0 <= k <= 48
    ensures SingularUpTo(k) == (if k >= 12 then 1 else 0) + (if k >= 24 then 1 else 0)
      + (if k >= 30 then 1 else 0) + (if k >= 36 then 1 else 0)
      + (if k >= 40 then 1 else 0) + (if k >= 48 then 1 else 0)
    decreases k
  {
    if k >= 1 {
      SingularUpTo48(k - 1);
      SingularPerimetersUpTo48(k);
    }
  }

  /** main(11) = 0, main(12) = 1 and main(48) = 6. */
  method HeaderAnswers() returns (r11: Result<nat>, r12: Result<nat>, r48: Result<nat>)
    ensures r11 == Ok(0) && r12 == Ok(1) && r48 == Ok(6)
  {
    r11 := CountSingularPerimeters(11);
    r12 := CountSingularPerimeters(12);
    r48 := CountSingularPerimeters(48);
    SingularUpTo48(11);
    SingularUpTo48(12);
    SingularUpTo48(48);
  }
}
