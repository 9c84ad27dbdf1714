/**
 * Mersenne-prime arithmetic: the Lucas-Lehmer loop, `isMersennePrime` of both
 * llt.js copies, the Euclid-Euler perfect number, `realLLT`'s result object and
 * the page script's exponent scan.
 */
module LucasLehmer {
  import opened Wrappers
  import opened JsNumbers
  import opened Arithmetic
  import opened Primality

  /** Points awarded by `realLLT`. */
  const ODD_PERFECT_POINTS: int := 1000000000
  const MERSENNE_POINTS: int := 10000
  const PLAIN_POINTS: int := 10

  /** The Lucas-Lehmer sequence over the unbounded integers: 4, 14, 194, ... */
  ghost function LucasSeq(k: nat): int {
    if k == 0 then 4 else LucasSeq(k - 1) * LucasSeq(k - 1) - 2
  }

  /** The Mersenne number 2^p - 1. */
  function Mersenne(p: nat): (m: int)
    ensures p >= 2 ==> m >= 3
    ensures p >= 3 ==> m >= 5
  {
    Pow2(p) - 1
  }

  /** The Lucas-Lehmer criterion: the Mersenne number divides the (p-2)-th Lucas number. */
  ghost predicate LucasVanishes(p: nat)
    requires p >= 2
  {
    LucasSeq(p - 2) % Mersenne(p) == 0
  }

  /** `for (i = 3n; i <= p; i++) s = (s * s - 2n) % m_p`, with BigInt's truncating `%`. */
  function LucasLoop(s: int, i: int, p: int, m: int): (r: int)
    requires i > p || m != 0
    ensures i > p ==> r == s
    ensures i <= p ==> Abs(r) < Abs(m)
    decreases if i > p then 0 else p - i + 1
  {
    if i > p then s else LucasLoop(Rem(s * s - 2, m), i + 1, p, m)
  }

  /** Every step of the loop keeps s congruent to the matching Lucas number. */
  lemma {:induction false} LucasLoopResidue(s: int, i: int, p: int, m: int)
    requires m >= 1 && 3 <= i <= p + 1
    requires s % m == LucasSeq(i - 3) % m
    ensures LucasLoop(s, i, p, m) % m == LucasSeq(p - 2) % m
    decreases p - i + 1
  {
    if i <= p {
      var s' := Rem(s * s - 2, m);
      RemCongruent(s * s - 2, m);
      SquareMinusTwoCongruent(s, LucasSeq(i - 3), m);
      LucasLoopResidue(s', i + 1, p, m);
    }
  }

  /** The loop started at s = 4 ends at 0 exactly when the Lucas-Lehmer criterion holds. */
  lemma LucasLoopDecides(p: int)
    requires p >= 3
    ensures LucasLoop(4, 3, p, Mersenne(p)) == 0 <==> LucasVanishes(p)
  {
    var m := Mersenne(p);
    var r := LucasLoop(4, 3, p, m);
    ModUnique(4, 0, 4, m);
    LucasLoopResidue(4, 3, p, m);
    SmallMultipleIsZero(r, m);
  }

  /** `isMersennePrime(p)` of the extension: checks `isPrime(p)` first, then 2 or the Lucas-Lehmer loop. */
  function IsMersennePrime(p: int): (b: bool)
    ensures b <==> Prime(p) && (p == 2 || LucasVanishes(p))
  {
    IsPrimeCorrect(p);
    if !IsPrime(p) then false
    else if p == 2 then true
    else
      var mp := OneShiftedLeft(p) - 1;
      LucasLoopDecides(p);
      LucasLoop(4, 3, p, mp) == 0
  }

  /** `isMersennePrime(p)` of the page script: no primality precheck, and s = 4 survives for p < 3. */
  function ScriptIsMersennePrime(p: int): (b: bool)
    ensures p < 3 ==> (b <==> p == 2)
    ensures p >= 3 ==> (b <==> LucasVanishes(p))
  {
    if p == 2 then true
    else
      var mp := OneShiftedLeft(p) - 1;
      if p >= 3 then LucasLoopDecides(p); LucasLoop(4, 3, p, mp) == 0
      else LucasLoop(4, 3, p, mp) == 0
  }

  /** On prime exponents the two copies agree; the script copy only drops the precheck. */
  lemma ScriptAgreesOnPrimes(p: int)
    requires IsPrime(p)
    ensures ScriptIsMersennePrime(p) == IsMersennePrime(p)
  {
    IsPrimeCorrect(p);
  }

  /** For p = 1 the modulus is 1, the loop never runs and s stays 4. */
  lemma ScriptExponentOne()
    ensures Mersenne(1) == 1
    ensures !ScriptIsMersennePrime(1)
  {
  }

  /** `calculatePerfectNumber(p)`: `((1n << p) - 1n) * (1n << (p - 1n))`. */
  function PerfectNumber(p: int): (r: int)
    ensures p >= 1 ==> r == Mersenne(p) * Pow2(p - 1)
    ensures p >= 2 ==> r % 2 == 0
    ensures p == 1 ==> r == 1
    ensures p <= 0 ==> r == 0
  {
    var r := (OneShiftedLeft(p) - 1) * OneShiftedLeft(p - 1);
    if p >= 2 then
      assert Pow2(p - 1) == 2 * Pow2(p - 2);
      assert r == (Mersenne(p) * Pow2(p - 2)) * 2;
      MultipleMod(Mersenne(p) * Pow2(p - 2), 2);
      r
    else r
  }

  /** The object `realLLT` returns; `taskID` is always null and `username` comes from local storage. */
  datatype LltResult = LltResult(
    exponent: int,
    isMersennePrime: bool,
    perfectIsEven: Option<bool>,
    username: Option<string>,
    taskId: Option<int>,
    points: int)

  /** `realLLT(testedExponent)`, with the stored username passed in. */
  function RealLlt(exponent: int, username: Option<string>): (r: LltResult)
    ensures r.exponent == exponent && r.username == username && r.taskId == None
    ensures r.isMersennePrime <==> Prime(exponent) && (exponent == 2 || LucasVanishes(exponent))
    ensures r.perfectIsEven.Some? <==> r.isMersennePrime
    ensures r.perfectIsEven != Some(false)
    ensures r.points == (if r.isMersennePrime then MERSENNE_POINTS else PLAIN_POINTS)
  {
    var isMersenne := IsMersennePrime(exponent);
    var perfectIsEven := if isMersenne then Some(IsEven(PerfectNumber(exponent))) else None;
    var points :=
      if perfectIsEven == Some(false) then ODD_PERFECT_POINTS
      else if isMersenne then MERSENNE_POINTS
      else PLAIN_POINTS;
    LltResult(exponent, isMersenne, perfectIsEven, username, None, points)
  }

  /** The condition `isPrime(p) && isMersennePrime(p)` under which the scan prints p. */
  predicate ScanReports(p: int) {
    IsPrime(p) && ScriptIsMersennePrime(p)
  }

  /**
   * The scan loop `for (p = 3n; p <= upperBound; p += 2n)`: the odd exponents from p
   * up to `upper` that pass the loop's test `reports`, in the order they are printed.
   */
  function OddScan(p: int, upper: int, reports: int -> bool): (r: seq<int>)
    requires p % 2 == 1
    ensures forall k :: 0 <= k < |r| ==> p <= r[k] <= upper && r[k] % 2 == 1 && reports(r[k])
    ensures forall x :: p <= x <= upper && x % 2 == 1 && reports(x) ==> x in r
    decreases if p > upper then 0 else upper - p + 1
  {
    if p > upper then []
    else
      var rest := OddScan(p + 2, upper, reports);
      if reports(p) then [p] + rest else rest
  }

  predicate StrictlyIncreasing(s: seq<int>) {
    forall k, l :: 0 <= k < l < |s| ==> s[k] < s[l]
  }

  /** The scan reports in strictly increasing order. */
  lemma {:induction false} OddScanIncreasing(p: int, upper: int, reports: int -> bool)
    requires p % 2 == 1
    ensures StrictlyIncreasing(OddScan(p, upper, reports))
    decreases if p > upper then 0 else upper - p + 1
  {
    if p <= upper {
      var rest := OddScan(p + 2, upper, reports);
      OddScanIncreasing(p + 2, upper, reports);
      if reports(p) {
        PrependSmaller(p, rest);
      }
    }
  }

  /** Putting a value below every element in front keeps a sequence increasing. */
  lemma PrependSmaller(x: int, s: seq<int>)
    requires StrictlyIncreasing(s)
    requires forall k :: 0 <= k < |s| ==> x < s[k]
    ensures StrictlyIncreasing([x] + s)
  {
    var r := [x] + s;
    forall k, l | 0 <= k < l < |r|
      ensures r[k] < r[l]
    {
      assert r[l] == s[l - 1];
      if k > 0 {
        assert r[k] == s[k - 1];
      }
    }
  }

  /** Past 2, the scan's test is primality of p together with the Lucas-Lehmer criterion. */
  lemma ScanReportsMeaning(x: int)
    requires x >= 3
    ensures ScanReports(x) <==> Prime(x) && LucasVanishes(x)
    ensures Prime(x) ==> x % 2 == 1
  {
    IsPrimeCorrect(x);
    if Prime(x) {
      assert !IsEven(x);
    }
  }

  /** The whole page script: `M2` first, then the scan up to `upperBound` (5000 in the script). */
  function ScanReport(upperBound: int): (r: seq<int>)
    ensures |r| >= 1 && r[0] == 2
    ensures StrictlyIncreasing(r)
    ensures forall x :: x in r[1..] <==> 3 <= x <= upperBound && Prime(x) && LucasVanishes(x)
  {
    var scan := OddScan(3, upperBound, ScanReports);
    ScanFacts(upperBound, scan);
    assert ([2] + scan)[1..] == scan;
    [2] + scan
  }

  lemma ScanFacts(upperBound: int, scan: seq<int>)
    requires scan == OddScan(3, upperBound, ScanReports)
    ensures StrictlyIncreasing([2] + scan)
    ensures forall x :: x in scan <==> 3 <= x <= upperBound && Prime(x) && LucasVanishes(x)
  {
    OddScanIncreasing(3, upperBound, ScanReports);
    PrependSmaller(2, scan);
    forall x
      ensures x in scan <==> 3 <= x <= upperBound && Prime(x) && LucasVanishes(x)
    {
      if x in scan {
        ScanReportsMeaning(x);
      }
      if 3 <= x <= upperBound && Prime(x) && LucasVanishes(x) {
        ScanReportsMeaning(x);
      }
    }
  }
}
