/** The concrete cases the Lucas-Lehmer test suite checks, evaluated on the model. */
module LltExamples {
  import opened Wrappers
  import opened JsNumbers
  import opened Arithmetic
  import opened NewtonSqrt
  import opened Primality
  import opened LucasLehmer

  lemma ParityExamples()
    ensures IsEven(4) && IsEven(0) && IsEven(-2)
    ensures !IsEven(3) && !IsEven(-1)
  {
  }

  /** Pins down `sqrt(n)` through the uniqueness of the integer square root. */
  lemma SqrtIs(n: int, r: int)
    requires n >= 0 && n != 4 && IsFloorSqrt(n, r)
    ensures Sqrt(n) == Ok(r)
  {
    FloorSqrtUnique(n, Sqrt(n).value, r);
  }

  lemma SqrtExamples()
    ensures Sqrt(0) == Ok(0) && Sqrt(1) == Ok(1) && Sqrt(9) == Ok(3) && Sqrt(16) == Ok(4)
    ensures Sqrt(2) == Ok(1) && Sqrt(3) == Ok(1) && Sqrt(5) == Ok(2) && Sqrt(8) == Ok(2) && Sqrt(10) == Ok(3)
    ensures Sqrt(-1).Thrown?
  {
    SqrtIs(9, 3);
    SqrtIs(16, 4);
    SqrtIs(2, 1);
    SqrtIs(3, 1);
    SqrtIs(5, 2);
    SqrtIs(8, 2);
    SqrtIs(10, 3);
  }

  lemma LargeSqrtExample()
    ensures Sqrt(123456789) == Ok(11111)
  {
    SqrtIs(123456789, 11111);
  }

  /** `newtonRaphsonMethod(n, 1n)` on the suite's inputs. */
  lemma NewtonExamples()
    ensures NewtonRaphson(9, 1) == 3 && NewtonRaphson(16, 1) == 4 && NewtonRaphson(10, 1) == 3
  {
    NewtonFromOne(9);
    NewtonFromOne(16);
    NewtonFromOne(10);
    FloorSqrtUnique(9, FloorSqrt(9), 3);
    FloorSqrtUnique(16, FloorSqrt(16), 4);
    FloorSqrtUnique(10, FloorSqrt(10), 3);
  }

  lemma PrimeExamples()
    ensures IsPrime(2) && IsPrime(3) && IsPrime(5) && IsPrime(7)
    ensures !IsPrime(1) && !IsPrime(0) && !IsPrime(-5) && !IsPrime(4) && !IsPrime(100)
    ensures !IsPrime(9) && !IsPrime(15)
  {
    SqrtIs(3, 1);
    SqrtIs(5, 2);
    SqrtIs(7, 2);
    SqrtIs(9, 3);
    SqrtIs(15, 3);
    assert IsEven(4) && IsEven(100);
  }

  /** One turn of the loop, with the quotient and remainder worked out. */
  lemma LucasStep(s: int, i: int, p: int, m: int, q: int, next: int)
    requires 3 <= i <= p && m >= 1 && s * s >= 2
    requires s * s - 2 == q * m + next && 0 <= next < m
    ensures LucasLoop(s, i, p, m) == LucasLoop(next, i + 1, p, m)
  {
    ModUnique(s * s - 2, q, next, m);
    assert Rem(s * s - 2, m) == next;
  }

  lemma PerfectNumberExamples()
    ensures PerfectNumber(2) == 6 && PerfectNumber(3) == 28 && PerfectNumber(5) == 496
  {
  }

  lemma LucasLoop3()
    ensures Mersenne(3) == 7 && OneShiftedLeft(3) - 1 == 7
    ensures LucasLoop(4, 3, 3, 7) == 0
  {
    LucasStep(4, 3, 3, 7, 2, 0);
  }

  lemma LucasLoop5()
    ensures Mersenne(5) == 31 && OneShiftedLeft(5) - 1 == 31
    ensures LucasLoop(4, 3, 5, 31) == 0
  {
    LucasStep(4, 3, 5, 31, 0, 14);
    LucasStep(14, 4, 5, 31, 6, 8);
    LucasStep(8, 5, 5, 31, 2, 0);
  }

  lemma LucasLoop7()
    ensures Mersenne(7) == 127 && OneShiftedLeft(7) - 1 == 127
    ensures LucasLoop(4, 3, 7, 127) == 0
  {
    LucasStep(4, 3, 7, 127, 0, 14);
    LucasStep(14, 4, 7, 127, 1, 67);
    LucasStep(67, 5, 7, 127, 35, 42);
    LucasStep(42, 6, 7, 127, 13, 111);
    LucasStep(111, 7, 7, 127, 97, 0);
  }

  lemma LucasLoop11()
    ensures Mersenne(11) == 2047 && OneShiftedLeft(11) - 1 == 2047
    ensures LucasLoop(4, 3, 11, 2047) == 1736
  {
    LucasStep(4, 3, 11, 2047, 0, 14);
    LucasStep(14, 4, 11, 2047, 0, 194);
    LucasStep(194, 5, 11, 2047, 18, 788);
    LucasStep(788, 6, 11, 2047, 303, 701);
    LucasStep(701, 7, 11, 2047, 240, 119);
    LucasStep(119, 8, 11, 2047, 6, 1877);
    LucasStep(1877, 9, 11, 2047, 1721, 240);
    LucasStep(240, 10, 11, 2047, 28, 282);
    LucasStep(282, 11, 11, 2047, 38, 1736);
  }

  lemma MersenneExamples()
    ensures !IsMersennePrime(4) && !IsMersennePrime(6)
    ensures IsMersennePrime(2) && IsMersennePrime(3) && IsMersennePrime(5) && IsMersennePrime(7)
    ensures !IsMersennePrime(11)
  {
    assert !IsMersennePrime(4) && !IsMersennePrime(6) && IsMersennePrime(2) by {
      PrimeExamples();
      assert IsEven(6);
    }
    assert IsMersennePrime(3) by {
      PrimeExamples();
      LucasLoop3();
    }
    assert IsMersennePrime(5) by {
      PrimeExamples();
      LucasLoop5();
    }
    assert IsMersennePrime(7) by {
      PrimeExamples();
      LucasLoop7();
    }
    assert !IsMersennePrime(11) by {
      SqrtIs(11, 3);
      assert IsPrime(11);
      LucasLoop11();
    }
  }

  lemma RealLltExamples(user: Option<string>)
    ensures RealLlt(3, user) == LltResult(3, true, Some(true), user, None, 10000)
    ensures RealLlt(2, user) == LltResult(2, true, Some(true), user, None, 10000)
    ensures RealLlt(4, user) == LltResult(4, false, None, user, None, 10)
    ensures !RealLlt(20, user).isMersennePrime && RealLlt(20, user).points == 10
  {
    MersenneExamples();
    assert IsEven(20);
  }
}
