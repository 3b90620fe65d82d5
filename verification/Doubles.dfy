/** Rounding to the nearest IEEE 754 double, ties to even, as JavaScript arithmetic does
    (section 6.1.6.1 of ECMA-262).  Exponents are unbounded. */
module Doubles {

  const TWO_52 := 4503599627370496.0
  const TWO_53 := 9007199254740992.0

  /** The nearest integer; a tie goes to the even one. */
  function RoundHalfEven(x: real): int {
    var f := x.Floor;
    var rest := x - f as real;
    if rest < 0.5 || (rest == 0.5 && f % 2 == 0) then f else f + 1
  }

  /** How often `x` can be halved before it is below 2^53, and doubled before it reaches 2^52. */
  function Steps(x: real): nat
    requires x > 0.0
  {
    if x >= TWO_53 then x.Floor else if x < TWO_52 then (TWO_52 / x).Floor else 0
  }

  /** A difference in parts of 2^-53, the unit in which rounding errors are measured. */
  function Parts(x: real): real {
    9007199254740992.0 * x
  }

  /** The significand of 53 bits is found by scaling into [2^52, 2^53). */
  function NearestPositive(x: real): (d: real)
    requires x > 0.0
    ensures -x <= Parts(d - x) <= x
    decreases Steps(x)
  {
    if x >= TWO_53 then 2.0 * NearestPositive(x / 2.0)
    else if x < TWO_52 then NearestPositive(2.0 * x) / 2.0
    else RoundHalfEven(x) as real
  }

  function Nearest(x: real): real {
    if x == 0.0 then 0.0 else if x > 0.0 then NearestPositive(x) else -NearestPositive(-x)
  }

  function AbsReal(x: real): real {
    if x < 0.0 then -x else x
  }

  /** `d` misses `x` by at most one part in 2^53. */
  predicate Approximates(d: real, x: real) {
    -AbsReal(x) <= Parts(d - x) <= AbsReal(x)
  }

  /** Rounding is symmetric about zero. */
  lemma NearestIsOdd(x: real)
    ensures Nearest(-x) == -Nearest(x)
  {
  }

  lemma NearestError(x: real)
    ensures Approximates(Nearest(x), x)
  {
  }

  /** An integer below 2^53 is a double. */
  lemma {:induction false} IntegerIsExact(n: nat)
    requires n <= 0x20_0000_0000_0000
    ensures Nearest(n as real) == n as real
    decreases 0x20_0000_0000_0000 - n
  {
    if 0 < n < 0x10_0000_0000_0000 {
      IntegerIsExact(2 * n);
      assert 2.0 * n as real == (2 * n) as real;
    } else if n == 0x20_0000_0000_0000 {
      assert TWO_53 / 2.0 == TWO_52;
    }
  }

  // ----- Rounding of given numbers -----

  function Doubled(x: real, k: nat): real
    decreases k
  {
    if k == 0 then x else Doubled(2.0 * x, k - 1)
  }

  function Halved(x: real, k: nat): real
    decreases k
  {
    if k == 0 then x else Halved(x, k - 1) / 2.0
  }

  /** Rounding at the scale where the significand is an integer. */
  lemma {:induction false} NearestAtScale(x: real, k: nat)
    requires x > 0.0 && TWO_52 <= Doubled(x, k) < TWO_53
    ensures Nearest(x) == Halved(RoundHalfEven(Doubled(x, k)) as real, k)
    decreases k
  {
    if k > 0 {
      NearestAtScale(2.0 * x, k - 1);
    }
  }

  lemma {:induction false} DoubledTwice(x: real, j: nat, k: nat)
    ensures Doubled(x, j + k) == Doubled(Doubled(x, j), k)
    decreases j
  {
    if j > 0 { DoubledTwice(2.0 * x, j - 1, k); }
  }

  lemma {:induction false} HalvedTwice(x: real, j: nat, k: nat)
    ensures Halved(x, j + k) == Halved(Halved(x, j), k)
    decreases k
  {
    if k > 0 { HalvedTwice(x, j, k - 1); }
  }

  lemma NineSteps(x: real)
    ensures Doubled(x, 9) == 512.0 * x && Halved(x, 9) == x / 512.0
  {
    assert Doubled(x, 9) == Doubled(8.0 * x, 6) == Doubled(64.0 * x, 3) == 512.0 * x;
    assert Halved(x, 9) == Halved(x, 6) / 8.0 && Halved(x, 6) == Halved(x, 3) / 8.0 && Halved(x, 3) == x / 8.0;
  }

  lemma EighteenSteps(x: real)
    ensures Doubled(x, 18) == 262144.0 * x && Halved(x, 18) == x / 262144.0
  {
    DoubledTwice(x, 9, 9);
    HalvedTwice(x, 9, 9);
    NineSteps(x);
    NineSteps(512.0 * x);
    NineSteps(x / 512.0);
  }

  lemma ThirtySixSteps(x: real)
    ensures Doubled(x, 36) == 68719476736.0 * x && Halved(x, 36) == x / 68719476736.0
  {
    var y, z := 262144.0 * x, x / 262144.0;
    EighteenSteps(x);
    DoubledTwice(x, 18, 18);
    HalvedTwice(x, 18, 18);
    EighteenSteps(y);
    EighteenSteps(z);
  }

  lemma FiftyThreeSteps(x: real)
    ensures Doubled(x, 53) == TWO_53 * x && Halved(x, 53) == x / TWO_53
  {
    var y, z := 68719476736.0 * x, x / 68719476736.0;
    ThirtySixSteps(x);
    DoubledTwice(x, 36, 17);
    HalvedTwice(x, 36, 17);
    DoubledTwice(y, 9, 8);
    HalvedTwice(z, 9, 8);
    NineSteps(y);
    NineSteps(z);
    EightSteps(512.0 * y);
    EightSteps(z / 512.0);
  }

  lemma EightSteps(x: real)
    ensures Doubled(x, 8) == 256.0 * x && Halved(x, 8) == x / 256.0
  {
    assert Doubled(x, 8) == Doubled(8.0 * x, 5) == Doubled(64.0 * x, 2) == 256.0 * x;
    assert Halved(x, 8) == Halved(x, 5) / 8.0 && Halved(x, 5) == Halved(x, 2) / 8.0 && Halved(x, 2) == x / 4.0;
  }

  /** 70 / 100 is a little less than 0.7. */
  lemma SeventyHundredths()
    ensures Nearest(70.0 / 100.0) == 6305039478318694.0 / TWO_53
  {
    var x := 70.0 / 100.0;
    FiftyThreeSteps(x);
    NearestAtScale(x, 53);
    assert RoundHalfEven(TWO_53 * x) == 6305039478318694;
    FiftyThreeSteps(6305039478318694.0);
  }

  /** 180000 times that is less than 126000 by so little that the product is the double just below. */
  lemma SeventyPercentOf180000()
    ensures Nearest(180000.0 * Nearest(70.0 / 100.0)) == 8658654068735999.0 / 68719476736.0
  {
    SeventyHundredths();
    var p := 180000.0 * Nearest(70.0 / 100.0);
    ThirtySixSteps(p);
    NearestAtScale(p, 36);
    assert RoundHalfEven(68719476736.0 * p) == 8658654068735999;
    ThirtySixSteps(8658654068735999.0);
  }

  /** 100000 times that is less than 70000 too, but rounds to it. */
  lemma SeventyPercentOf100000()
    ensures Nearest(100000.0 * Nearest(70.0 / 100.0)) == 70000.0
    ensures 100000.0 * Nearest(70.0 / 100.0) < 70000.0
  {
    SeventyHundredths();
    var p := 100000.0 * Nearest(70.0 / 100.0);
    ThirtySixSteps(p);
    NearestAtScale(p, 36);
    assert RoundHalfEven(68719476736.0 * p) == 4810363371520000;
    ThirtySixSteps(4810363371520000.0);
  }

  /** The nearest integer is at most one half away, and an even one when it is just that far. */
  lemma HalfEvenIsNearest(x: real)
    ensures -0.5 <= RoundHalfEven(x) as real - x <= 0.5
    ensures RoundHalfEven(x) as real - x == 0.5 || x - RoundHalfEven(x) as real == 0.5 ==> RoundHalfEven(x) % 2 == 0
  {
  }
}
