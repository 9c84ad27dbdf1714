/**
 * The BigInt operators the Lucas-Lehmer code relies on. JavaScript's `/` and `%`
 * on BigInt truncate toward zero, while Dafny's `/` and `%` are Euclidean; the
 * functions below state the JavaScript meaning explicitly.
 */
module JsNumbers {

  function Abs(x: int): (r: nat)
    ensures r == x || r == -x
  {
    if x < 0 then -x else x
  }

  /**
   * BigInt `a / b`: the quotient rounded toward zero; `b == 0` throws a RangeError.
   * What is left over is smaller than the divisor and has the sign of the dividend,
   * which fixes the quotient for divisors of either sign.
   */
  function Quot(a: int, b: int): (q: int)
    requires b != 0
    ensures Abs(a - q * b) < Abs(b)
    ensures a >= 0 ==> a - q * b >= 0
    ensures a <= 0 ==> a - q * b <= 0
  {
    if a >= 0 && b > 0 then a / b
    else if a >= 0 then -(a / -b)
    else if b > 0 then -((-a) / b)
    else (-a) / (-b)
  }

  /** BigInt `a % b`: the remainder of the truncating division, carrying the sign of `a`. */
  function Rem(a: int, b: int): (r: int)
    requires b != 0
    ensures a == Quot(a, b) * b + r
    ensures a >= 0 && b > 0 ==> r == a % b
    ensures Abs(r) < Abs(b)
    ensures a >= 0 ==> r >= 0
    ensures a <= 0 ==> r <= 0
  {
    TruncatedDivision(a, b);
    if a >= 0 then a % Abs(b) else -((-a) % Abs(b))
  }

  /** Quotient times divisor plus the truncated remainder gives back the dividend. */
  lemma TruncatedDivision(a: int, b: int)
    requires b != 0
    ensures a == Quot(a, b) * b + (if a >= 0 then a % Abs(b) else -((-a) % Abs(b)))
  {
    if a >= 0 && b > 0 {
      assert Quot(a, b) == a / b;
      assert a == (a / b) * b + a % b;
    } else if a >= 0 {
      assert Quot(a, b) == -(a / -b);
      assert a == (a / -b) * -b + a % -b;
    } else if b > 0 {
      assert Quot(a, b) == -((-a) / b);
      assert -a == ((-a) / b) * b + (-a) % b;
    } else {
      assert Quot(a, b) == (-a) / (-b);
      assert -a == ((-a) / -b) * -b + (-a) % -b;
    }
  }

  /** 2 to the power k. */
  function Pow2(k: nat): (r: nat)
    ensures r >= 1
    ensures k >= 1 ==> r >= 2 * k && r % 2 == 0
  {
    if k == 0 then 1 else 2 * Pow2(k - 1)
  }

  /** BigInt `1n << k`; a negative shift count shifts right, which leaves nothing of the 1. */
  function OneShiftedLeft(k: int): (r: int)
    ensures k >= 0 ==> r == Pow2(k)
    ensures k < 0 ==> r == 0
  {
    if k >= 0 then Pow2(k) else 1 / Pow2(-k)
  }

  /** BigInt `x >> 1`: an arithmetic shift, which is floor division by 2. */
  function HalfDown(x: int): (r: int)
    ensures 2 * r <= x < 2 * r + 2
  {
    x / 2
  }
}
