/** Trial-division primality and parity, as in both copies of llt.js. */
module Primality {
  import opened JsNumbers
  import opened NewtonSqrt
  import opened Arithmetic

  /** d divides n (for a positive d). */
  predicate Divides(d: int, n: int)
    requires d >= 1
  {
    n % d == 0
  }

  /** The mathematical definition: at least 2, with no divisor strictly between 1 and itself. */
  ghost predicate Prime(p: int) {
    p >= 2 && forall d :: 2 <= d < p ==> !Divides(d, p)
  }

  /** `isEven(number)`: the truncated remainder by 2 is zero. */
  function IsEven(number: int): (b: bool)
    ensures b <==> number % 2 == 0
  {
    Rem(number, 2) == 0
  }

  /** The `for (i = 3n; i <= root_p; i += 2n)` loop: no odd candidate from i to root divides p. */
  function NoOddDivisorFrom(p: int, i: int, root: int): (b: bool)
    requires p >= 1 && i >= 3 && i % 2 == 1
    ensures b <==> forall d :: i <= d <= root && d % 2 == 1 ==> !Divides(d, p)
    decreases root - i
  {
    if i > root then true
    else if Rem(p, i) == 0 then assert Divides(i, p); false
    else
      OddAfterOdd(i);
      NoOddDivisorFrom(p, i + 2, root)
  }

  /** The odd number after an odd i is i + 2. */
  lemma OddAfterOdd(i: int)
    requires i % 2 == 1
    ensures forall d :: i < d && d % 2 == 1 ==> i + 2 <= d
  {
    forall d | i < d && d % 2 == 1
      ensures i + 2 <= d
    {
      assert d - i == 2 * (d / 2 - i / 2);
    }
  }

  /** `isPrime(p)`: 2 is prime; p <= 1 and even p are not; otherwise trial division by odd i up to sqrt(p). */
  function IsPrime(p: int): (b: bool)
  {
    if p == 2 then true
    else if p <= 1 || IsEven(p) then false
    else
      var root := Sqrt(p);
      NoOddDivisorFrom(p, 3, root.value)
  }

  /** An even divisor makes the number even. */
  lemma EvenDivisor(d: int, p: int)
    requires d >= 2 && Divides(d, p) && d % 2 == 0
    ensures p % 2 == 0
  {
    assert p == (p / d) * d;
    assert p == ((p / d) * (d / 2)) * 2;
    MultipleMod((p / d) * (d / 2), 2);
  }

  /** A divisor above the square root has a cofactor at or below it. */
  lemma SmallCofactor(p: int, d: int, root: int)
    requires IsFloorSqrt(p, root) && 2 <= d < p && Divides(d, p) && d > root
    ensures 2 <= p / d <= root && Divides(p / d, p)
  {
    var e := p / d;
    assert p == e * d;
    if e > root {
      MulMono(root + 1, e, root + 1);
      MulMono(root + 1, d, e);
      assert false;
    }
    if e <= 1 {
      MulMono(e, 1, d);
      assert false;
    }
    MultipleMod(d, e);
  }

  /** Above 2, the floor square root is below the value. */
  lemma RootBelow(p: int, root: int)
    requires p >= 3 && IsFloorSqrt(p, root)
    ensures root < p
  {
    if root >= p {
      MulMono(p, root, root);
      MulMono(3, p, p);
      assert false;
    }
  }

  /** `isPrime` decides mathematical primality for every integer, negatives included. */
  lemma {:induction false} IsPrimeCorrect(p: int)
    ensures IsPrime(p) <==> Prime(p)
  {
    if p == 2 {
    } else if p <= 1 {
    } else if IsEven(p) {
      assert Divides(2, p);
    } else {
      var root := Sqrt(p).value;
      assert IsFloorSqrt(p, root);
      RootBelow(p, root);
      if !Prime(p) {
        var d :| 2 <= d < p && Divides(d, p);
        if d % 2 == 0 {
          EvenDivisor(d, p);
        }
        if d > root {
          SmallCofactor(p, d, root);
          var e := p / d;
          if e % 2 == 0 {
            EvenDivisor(e, p);
          }
          assert 3 <= e <= root && e % 2 == 1;
        }
      }
    }
  }
}
