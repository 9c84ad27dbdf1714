/**
 * The BigInt square root of the Lucas-Lehmer code (`newtonRaphsonMethod` and
 * `sqrt`, identical in the extension and the page-script copy of llt.js).
 */
module NewtonSqrt {
  import opened Wrappers
  import opened JsNumbers
  import opened Arithmetic

  /** r is the integer square root of n: the largest r whose square does not exceed n. */
  predicate IsFloorSqrt(n: int, r: int) {
    0 <= r && r * r <= n < (r + 1) * (r + 1)
  }

  /** Reference definition of the integer square root, by counting up from 0. */
  ghost function FloorSqrt(n: nat): (r: nat)
    ensures IsFloorSqrt(n, r)
  {
    if n == 0 then 0
    else
      var s := FloorSqrt(n - 1);
      if (s + 1) * (s + 1) <= n then s + 1 else s
  }

  /** The integer square root is unique. */
  lemma {:induction false} FloorSqrtUnique(n: int, r: int, s: int)
    requires IsFloorSqrt(n, r) && IsFloorSqrt(n, s)
    ensures r == s
  {
    if r < s {
      MulMono(r + 1, s, r + 1);
      MulMono(r + 1, s, s);
      assert false;
    } else if s < r {
      MulMono(s + 1, r, s + 1);
      MulMono(s + 1, r, r);
      assert false;
    }
  }

  lemma SquareGap(s: int, x: int)
    ensures (2 * s - x) * x == s * s - (s - x) * (s - x)
  {
  }

  lemma DivBounds(n: nat, x: int)
    requires x >= 1
    ensures (n / x) * x <= n < (n / x + 1) * x
  {
    assert n == (n / x) * x + n % x;
    assert (n / x + 1) * x == (n / x) * x + x;
  }

  /** One Newton step `((n / x0) + x0) >> 1n`. */
  function Step(n: int, x0: int): int
    requires n >= 0 && x0 >= 1
  {
    HalfDown(Quot(n, x0) + x0)
  }

  lemma StepUnfold(n: nat, x0: int)
    requires x0 >= 1
    ensures Step(n, x0) == (n / x0 + x0) / 2
  {
  }

  /** If q + x >= 2s then the halved sum is at least s. */
  lemma RootBelowSum(n: nat, x0: int, s: nat)
    requires x0 >= 1 && s * s <= n
    ensures n / x0 + x0 >= 2 * s
  {
    var q := n / x0;
    DivBounds(n, x0);
    if q + x0 < 2 * s {
      var t := 2 * s - x0;
      MulMono(q + 1, t, x0);
      SquareGap(s, x0);
      SquareNonneg(s - x0);
      assert false;
    }
  }

  /** From any positive guess, one step lands at or above the square root. */
  lemma StepAtLeastRoot(n: nat, x0: int, s: nat)
    requires x0 >= 1 && IsFloorSqrt(n, s)
    ensures Step(n, x0) >= s
  {
    StepUnfold(n, x0);
    RootBelowSum(n, x0, s);
  }

  /** Above the square root, a step strictly decreases the guess. */
  lemma StepDecreasesAboveRoot(n: nat, x0: int, s: nat)
    requires IsFloorSqrt(n, s) && x0 > s
    ensures Step(n, x0) < x0
  {
    var q := n / x0;
    MulMono(s + 1, x0, s + 1);
    MulMono(s + 1, x0, x0);
    assert n < x0 * x0;
    assert q * x0 <= n;
    if q >= x0 {
      MulMono(x0, q, x0);
      assert false;
    }
  }

  /** At the square root, a step yields the root or the root plus one. */
  lemma StepAtRoot(n: nat, s: nat)
    requires IsFloorSqrt(n, s) && s >= 1
    ensures Step(n, s) == s || Step(n, s) == s + 1
  {
    var q := n / s;
    assert q * s <= n < (q + 1) * s;
    if q < s {
      MulMono(q + 1, s, s);
      assert false;
    }
    if q > s + 2 {
      MulMono(s + 3, q, s);
      assert false;
    }
  }

  /** A guess no larger than n steps to a guess no larger than n. */
  lemma StepBounded(n: nat, x0: int)
    requires 1 <= x0 <= n
    ensures Step(n, x0) <= n
  {
    StepUnfold(n, x0);
    DivBounds(n, x0);
    MulMono(1, x0, n / x0);
  }

  /** The facts about one step that the iteration relies on. */
  lemma StepFacts(n: nat, x0: int)
    requires n >= 1 && x0 >= 1
    ensures Step(n, x0) >= FloorSqrt(n)
    ensures x0 > FloorSqrt(n) ==> Step(n, x0) < x0
    ensures x0 == FloorSqrt(n) ==> Step(n, x0) == x0 || Step(n, x0) == x0 + 1
    ensures FloorSqrt(n) <= n && (x0 <= n ==> Step(n, x0) <= n)
  {
    var s := FloorSqrt(n);
    assert s <= n by {
      MulMono(1, s, s);
    }
    if x0 <= n {
      StepBounded(n, x0);
    }
    StepAtLeastRoot(n, x0, s);
    if x0 > s {
      StepDecreasesAboveRoot(n, x0, s);
    } else if x0 == s {
      StepAtRoot(n, s);
    }
  }

  /**
   * `newtonRaphsonMethod(n, x0)`. It stops as soon as the next guess is the
   * current one or one more; from a guess at or above the root that happens
   * exactly at the root, but from a guess below the root it can stop early.
   */
  function NewtonRaphson(n: int, x0: int): (r: int)
    requires n >= 1 && x0 >= 1
    ensures x0 >= FloorSqrt(n) ==> r == FloorSqrt(n)
    ensures r == FloorSqrt(n) || (r == x0 && r < FloorSqrt(n))
    decreases if x0 >= FloorSqrt(n) then x0 - FloorSqrt(n) else n + 1
  {
    var x1 := Step(n, x0);
    StepFacts(n, x0);
    if x0 == x1 || x0 == x1 - 1 then x0 else NewtonRaphson(n, x1)
  }

  /** From the starting guess 1 the iteration finds the root of every n >= 1 but 4. */
  lemma {:induction false} NewtonFromOne(n: int)
    requires n >= 1
    ensures NewtonRaphson(n, 1) == FloorSqrt(n) <==> n != 4
  {
    var s := FloorSqrt(n);
    StepFacts(n, 1);
    StepUnfold(n, 1);
    if n == 4 {
      FloorSqrtUnique(4, 2, s);
    } else if s >= 2 {
      MulMono(2, s, 2);
      MulMono(2, s, s);
      assert n >= 5;
    }
  }

  /** `sqrt(value)`: throws for negatives, returns 0 and 1 unchanged, and starts Newton at 1. */
  function Sqrt(value: int): (r: Result<int>)
    ensures value < 0 <==> r.Thrown?
    ensures 0 <= value < 2 ==> r == Ok(value)
    ensures r.Ok? ==> (IsFloorSqrt(value, r.value) <==> value != 4)
  {
    if value < 0 then Thrown("Taking the square of negative numbers (<0) is not supported.")
    else if value < 2 then Ok(value)
    else
      NewtonFromOne(value);
      var r := NewtonRaphson(value, 1);
      if value == 4 then
        assert !IsFloorSqrt(4, 1);
        Ok(r)
      else
        Ok(r)
  }

  /** At 4 the early exit fires at the first step: 1 is returned instead of 2. */
  lemma SqrtOfFourIsOne()
    ensures Sqrt(4) == Ok(1)
    ensures !IsFloorSqrt(4, 1) && IsFloorSqrt(4, 2)
  {
    assert Step(4, 1) == 2;
  }

  /**
   * The corrected square root: Newton started at `value` itself, which is never
   * below the root, so the early exit can only fire at the root.
   */
  function SqrtFromAbove(value: int): (r: Result<int>)
    ensures value < 0 <==> r.Thrown?
    ensures r.Ok? ==> IsFloorSqrt(value, r.value)
  {
    if value < 0 then Thrown("Taking the square of negative numbers (<0) is not supported.")
    else if value < 2 then Ok(value)
    else
      var s := FloorSqrt(value);
      MulMono(1, s, s);
      Ok(NewtonRaphson(value, value))
  }

  /** The two square roots differ at 4 only. */
  lemma SqrtAgreesAwayFromFour(value: int)
    ensures Sqrt(value) == SqrtFromAbove(value) <==> value != 4
  {
    if value >= 0 {
      var a, b := Sqrt(value), SqrtFromAbove(value);
      if value != 4 {
        FloorSqrtUnique(value, a.value, b.value);
      } else {
        SqrtOfFourIsOne();
      }
    }
  }
}
