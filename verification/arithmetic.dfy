/** Products, Euclidean remainders and congruences: the arithmetic the proofs share. */
module Arithmetic {
  import opened JsNumbers

  lemma MulMono(a: int, b: int, c: int)
    requires 0 <= a <= b && c >= 0
    ensures a * c <= b * c && c * a <= c * b
  {
  }

  lemma SquareNonneg(d: int)
    ensures d * d >= 0
  {
    if d < 0 {
      MulMono(0, -d, -d);
    } else {
      MulMono(0, d, d);
    }
  }

  lemma MultipleMod(a: int, b: int)
    requires b >= 1
    ensures (a * b) % b == 0
  {
    var m := a * b;
    var k := a - m / b;
    assert k * b == m % b;
    if k >= 1 {
      MulMono(1, k, b);
    } else if k <= -1 {
      MulMono(1, -k, b);
    }
  }


  /** The remainder is determined by any decomposition y == q * m + r with 0 <= r < m. */
  lemma ModUnique(y: int, q: int, r: int, m: int)
    requires m >= 1 && y == q * m + r && 0 <= r < m
    ensures y % m == r
  {
    var k := q - y / m;
    assert k * m == y % m - r;
    if k >= 1 {
      MulMono(1, k, m);
    } else if k <= -1 {
      MulMono(1, -k, m);
    }
  }

  /** Adding a multiple of m leaves the remainder unchanged. */
  lemma AddMultiple(x: int, k: int, m: int)
    requires m >= 1
    ensures (x + k * m) % m == x % m
  {
    assert x == (x / m) * m + x % m;
    assert x + k * m == (x / m + k) * m + x % m;
    ModUnique(x + k * m, x / m + k, x % m, m);
  }

  /** BigInt `%` agrees with Euclidean `%` up to congruence. */
  lemma RemCongruent(x: int, m: int)
    requires m >= 1
    ensures Rem(x, m) % m == x % m
  {
    var q := Quot(x, m);
    assert Rem(x, m) == x + (-q) * m;
    AddMultiple(x, -q, m);
  }

  /** Congruent values stay congruent under s -> s * s - 2. */
  lemma SquareMinusTwoCongruent(a: int, b: int, m: int)
    requires m >= 1 && a % m == b % m
    ensures (a * a - 2) % m == (b * b - 2) % m
  {
    var k := a / m - b / m;
    assert a == b + k * m;
    assert a * a - 2 == (b * b - 2) + (2 * b * k + k * k * m) * m;
    AddMultiple(b * b - 2, 2 * b * k + k * k * m, m);
  }

  /** Below the modulus in absolute value, only 0 is a multiple of it. */
  lemma SmallMultipleIsZero(r: int, m: int)
    requires m >= 1 && Abs(r) < m
    ensures r % m == 0 <==> r == 0
  {
    if r < 0 {
      ModUnique(r, -1, r + m, m);
    } else {
      ModUnique(r, 0, r, m);
    }
  }
}
