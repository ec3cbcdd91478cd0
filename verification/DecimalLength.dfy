/** How many digits a decimal of a given length needs: `INT_DIGITS_FOR_S`, by which the callers of
    `int_set_s` choose the size of its target. */
module DecimalLength {
  import opened Digits
  import opened BigInt
  import opened Decimal
  import IntOps

  /** `INT_DIGITS_FOR_S`: the length divided by the decimal logarithm of 65536, rounded up. */
  function DigitsForS(length: nat): nat {
    (1651124 + length * 342808) / 1651125
  }

  // ---- powers ----

  function Power(b: nat, n: nat): nat {
    if n == 0 then 1 else b * Power(b, n - 1)
  }

  lemma {:induction false} PowerAdd(b: nat, m: nat, n: nat)
    ensures Power(b, m + n) == Power(b, m) * Power(b, n)
  {
    if m > 0 {
      PowerAdd(b, m - 1, n);
      assert b * (Power(b, m - 1) * Power(b, n)) == (b * Power(b, m - 1)) * Power(b, n);
    }
  }

  lemma {:induction false} PowerOfPower(b: nat, m: nat, n: nat)
    ensures Power(b, m * n) == Power(Power(b, m), n)
  {
    if n > 0 {
      PowerOfPower(b, m, n - 1);
      PowerAdd(b, m, m * (n - 1));
      assert m * n == m + m * (n - 1);
    }
  }

  lemma {:induction false} PowerMonotonic(a: nat, b: nat, n: nat)
    requires a <= b
    ensures Power(a, n) <= Power(b, n)
  {
    if n > 0 {
      var x, y := Power(a, n - 1), Power(b, n - 1);
      PowerMonotonic(a, b, n - 1);
      MulMonotonic(x, y, a);
      MulMonotonic(a, b, y);
    }
  }

  lemma PowerStrict(a: nat, b: nat, n: nat)
    requires a < b && 1 <= n
    ensures Power(a, n) < Power(b, n)
  {
    hide Power;
    PowerMonotonic(a, b, n - 1);
    PowerGrows(b, 0, n - 1);
    PowerParts(a, n);
    PowerParts(b, n);
    StrictProduct(a, b, Power(a, n - 1), Power(b, n - 1));
  }

  lemma PowerParts(b: nat, n: nat)
    requires 1 <= n
    ensures Power(b, n) == b * Power(b, n - 1) && Power(b, 0) == 1
  {
  }

  lemma StrictProduct(a: nat, b: nat, x: nat, y: nat)
    requires a < b && x <= y && 1 <= y
    ensures a * x < b * y
  {
    MulMonotonic(x, y, a);
    MulMonotonic(a + 1, b, y);
  }

  lemma {:induction false} PowerGrows(b: nat, m: nat, n: nat)
    requires 1 <= b && m <= n
    ensures Power(b, m) <= Power(b, n)
    decreases n
  {
    if m < n {
      PowerGrows(b, m, n - 1);
      MulMonotonic(1, b, Power(b, n - 1));
    }
  }

  /** Comparing two powers by one comparison of others: `a^q < b^p` and `p / q <= e / l`. */
  lemma ComparePowers(a: nat, q: nat, b: nat, p: nat, l: nat, e: nat)
    requires Power(a, q) < Power(b, p) && Times(p, l) <= Times(q, e) && 1 <= b && 1 <= l
    ensures Power(a, l) < Power(b, e)
  {
    hide Power, Times;
    RaisedComparison(a, q, b, p, l);
    PowersOfPowers(b, q, e);
    RootComparison(Power(a, l), Power(b, e), q, b, Times(p, l), Times(q, e));
  }

  lemma RootComparison(x: nat, y: nat, q: nat, b: nat, m: nat, n: nat)
    requires Power(x, q) < Power(b, m) && Power(b, n) == Power(y, q) && m <= n && 1 <= b
    ensures x < y
  {
    PowerGrows(b, m, n);
    if y <= x {
      PowerMonotonic(y, x, q);
    }
  }

  lemma RaisedComparison(a: nat, q: nat, b: nat, p: nat, l: nat)
    requires Power(a, q) < Power(b, p) && 1 <= l
    ensures Power(Power(a, l), q) < Power(b, Times(p, l))
  {
    hide Power, Times;
    PowersOfPowers(a, q, l);
    PowersOfPowers(b, p, l);
    PowerStrict(Power(a, q), Power(b, p), l);
  }

  lemma PowersOfPowers(b: nat, m: nat, n: nat)
    ensures Power(Power(b, m), n) == Power(Power(b, n), m) == Power(b, Times(m, n))
  {
    hide Power;
    PowerOfPower(b, m, n);
    PowerOfPower(b, n, m);
    assert m * n == n * m;
  }

  lemma {:induction false} DecimalPower(k: nat)
    ensures Pow10(k) == Power(10, k)
  {
    if k > 0 {
      DecimalPower(k - 1);
    }
  }

  lemma {:induction false} DigitPower(k: nat)
    ensures Pow(k) == Power(2, 16 * k)
  {
    if k > 0 {
      DigitPower(k - 1);
      PowerAdd(2, 16, 16 * (k - 1));
      SmallPowers();
    }
  }

  // ---- two close fractions for the logarithm ----

  /** From a power of ten to its square, or ten times that, with a mantissa rounded up. */
  lemma SquareUp(k: nat, a: nat, e: nat, factor: nat, b: nat, s: nat)
    requires Power(10, k) <= a * Power(2, e)
    requires factor * a * a <= b * Power(2, s) && (factor == 1 || factor == 10)
    ensures Power(10, 2 * k + if factor == 1 then 0 else 1) <= b * Power(2, 2 * e + s)
  {
    hide Power;
    SquareOfPower(k, factor);
    var t, x, y := Power(10, k), Power(2, e), Power(2, s);
    PowerAdd(2, e, e);
    PowerAdd(2, 2 * e, s);
    MulMonotonic(t, a * x, t);
    MulMonotonic(t, a * x, a * x);
    MulMonotonic(t * t, (a * x) * (a * x), factor);
    MulMonotonic(factor * a * a, b * y, x * x);
    assert factor * ((a * x) * (a * x)) == (factor * a * a) * (x * x);
    assert (b * y) * (x * x) == b * ((x * x) * y);
  }

  /** The same with the mantissa rounded down. */
  lemma SquareDown(k: nat, a: nat, e: nat, factor: nat, b: nat, s: nat)
    requires a * Power(2, e) <= Power(10, k)
    requires b * Power(2, s) <= factor * a * a && (factor == 1 || factor == 10)
    ensures b * Power(2, 2 * e + s) <= Power(10, 2 * k + if factor == 1 then 0 else 1)
  {
    hide Power;
    SquareOfPower(k, factor);
    var t, x, y := Power(10, k), Power(2, e), Power(2, s);
    PowerAdd(2, e, e);
    PowerAdd(2, 2 * e, s);
    MulMonotonic(a * x, t, t);
    MulMonotonic(a * x, t, a * x);
    MulMonotonic((a * x) * (a * x), t * t, factor);
    MulMonotonic(b * y, factor * a * a, x * x);
    assert factor * ((a * x) * (a * x)) == (factor * a * a) * (x * x);
    assert (b * y) * (x * x) == b * ((x * x) * y);
  }

  lemma SquareOfPower(k: nat, factor: nat)
    requires factor == 1 || factor == 10
    ensures Power(10, 2 * k + if factor == 1 then 0 else 1) == factor * (Power(10, k) * Power(10, k))
  {
    PowerAdd(10, k, k);
    assert 2 * k + 1 - 1 == k + k;
  }

  lemma SmallPowers()
    ensures Power(10, 8) == 100_000_000 && Power(10, 11) == 100_000_000_000
    ensures Power(2, 3) == 8 && Power(2, 13) == 8192 && Power(2, 16) == 65536
    ensures Power(2, 23) == 0x80_0000 && Power(2, 24) == 0x100_0000
    ensures Power(2, 26) == 0x400_0000 && Power(2, 27) == 0x800_0000 && Power(2, 28) == 0x1000_0000
  {
    assert Power(10, 4) == 10000;
    assert Power(10, 8) == 10000 * Power(10, 4);
    assert Power(2, 13) == 8192;
    assert Power(2, 18) == 32 * Power(2, 13);
    assert Power(2, 23) == 32 * Power(2, 18);
  }

  lemma PowerPositive(n: nat)
    ensures 1 <= Power(2, n)
  {
    PowerGrows(2, 0, n);
  }

  lemma TenAtMost()
    ensures Power(10, 761) < Power(2, 16 * 158)
  {
    hide Power;
    SmallPowers();
    SquareUp(11, 12207032, 13, 10, 11102232, 27);
    SquareUp(23, 11102232, 53, 10, 9183553, 27);
    SquareUp(47, 9183553, 133, 10, 12567289, 26);
    SquareUp(95, 12567289, 292, 1, 9413765, 24);
    SquareUp(190, 9413765, 608, 1, 10564205, 23);
    SquareUp(380, 10564205, 1239, 10, 16630058, 26);
    PowerAdd(2, 24, 2504);
    PowerPositive(2504);
    MulMonotonic(16630059, Power(2, 24), Power(2, 2504));
  }

  lemma TenAtLeast()
    ensures Power(2, 16 * 109) < Power(10, 525)
  {
    hide Power;
    SmallPowers();
    SquareDown(8, 12500000, 3, 1, 9313225, 24);
    SquareDown(16, 9313225, 30, 1, 10339756, 23);
    SquareDown(32, 10339756, 83, 10, 15930914, 26);
    SquareDown(65, 15930914, 192, 10, 9454564, 28);
    SquareDown(131, 9454564, 412, 1, 10655973, 23);
    SquareDown(262, 10655973, 847, 10, 8460116, 27);
    PowerAdd(2, 23, 1721);
    PowerPositive(1721);
    MulMonotonic(Power(2, 23) + 1, 8460116, Power(2, 1721));
  }

  // ---- what the length says ----

  /** The powers of ten with as many zeros as a decimal has digits, between powers of 65536. */
  lemma LengthBounds(length: nat)
    requires 1 <= length <= 1224
    ensures 1 <= DigitsForS(length)
    ensures Pow(DigitsForS(length) - 1) < Pow10(length) < Pow(DigitsForS(length))
  {
    hide Power, Pow, Pow10;
    var d := DigitsForS(length);
    LengthRatio(length, d);
    TenAtMost();
    ComparePowers(10, 761, 2, 16 * 158, length, 16 * d);
    TenAtLeast();
    if d == 1 {
      PowersOfTen(length);
    } else {
      ComparePowers(2, 16 * 109, 10, 525, 16 * (d - 1), length);
    }
    DecimalPower(length);
    DigitPower(d);
    DigitPower(d - 1);
  }

  lemma PowersOfTen(k: nat)
    requires 1 <= k
    ensures Pow(0) == 1 < Pow10(k)
  {
  }

  /** On lengths up to 1224, the ratio used is as good as both fractions. */
  lemma LengthRatio(length: nat, d: nat)
    requires 1 <= length <= 1224 && d == DigitsForS(length)
    ensures 1 <= d && 158 * length <= 761 * d && 525 * (d - 1) <= 109 * length
  {
    assert 1651125 * (d - 1) < length * 342808 <= 1651125 * d;
  }

  lemma {:induction false} ReadingBelow(s: string)
    requires IsNumeral(s)
    ensures Reading(s) < Pow10(|s|)
  {
    if |s| > 0 {
      ReadingBelow(s[..|s| - 1]);
    }
  }

  function Nines(length: nat): (s: string)
    ensures IsNumeral(s) && |s| == length && Reading(s) == Pow10(length) - 1
  {
    if length == 0 then ""
    else
      var t := Nines(length - 1);
      assert (t + "9")[..length - 1] == t;
      t + "9"
  }

  /** Every decimal of this length is less than 65536 to the power `m`. */
  ghost predicate AllFit(length: nat, m: nat) {
    forall s: string :: IsNumeral(s) && |s| == length ==> Reading(s) < Pow(m)
  }

  lemma AllFitIff(length: nat, m: nat)
    ensures AllFit(length, m) <==> Pow10(length) <= Pow(m)
  {
    if Pow10(length) <= Pow(m) {
      forall s: string | IsNumeral(s) && |s| == length ensures Reading(s) < Pow(m) {
        ReadingBelow(s);
      }
    } else {
      assert Reading(Nines(length)) == Pow10(length) - 1;
    }
  }

  /** `INT_DIGITS_FOR_S` is the least number of digits that holds every decimal of a length, up to
      the length that no number can hold. */
  lemma DigitsForSIsLeast(length: nat, m: nat)
    requires length <= 1224
    ensures AllFit(length, m) <==> DigitsForS(length) <= m
  {
    hide Pow, Pow10;
    AllFitIff(length, m);
    if length == 0 {
      NoDigits();
      PowMonotonic(0, m);
    } else {
      LengthBounds(length);
      if DigitsForS(length) <= m {
        PowMonotonic(DigitsForS(length), m);
      } else {
        PowMonotonic(m, DigitsForS(length) - 1);
      }
    }
  }

  lemma NoDigits()
    ensures Pow10(0) == Pow(0) == 1
  {
  }

  /** The room `newExprNumberInt` gives a literal, computed in eight bits. */
  function LiteralRoom(length: nat): nat {
    var s := DigitsForS(length) % 256;
    (s + s % 2) % 256
  }

  /** A literal has room for every decimal of its length if and only if that is at most 1223. */
  lemma LiteralFits(length: nat)
    ensures AllFit(length, LiteralRoom(length)) <==> length <= 1223
  {
    hide Pow, Pow10;
    if length <= 1223 {
      DigitsForSIsLeast(length, LiteralRoom(length));
    } else {
      AllFitIff(length, LiteralRoom(length));
      TooLong(length);
      PowMonotonic(LiteralRoom(length), 254);
    }
  }

  lemma {:induction false} TooLong(length: nat)
    requires 1224 <= length
    ensures Pow(254) < Pow10(length)
  {
    hide Pow, Pow10;
    if length == 1224 {
      LengthBounds(1224);
    } else {
      TooLong(length - 1);
      TenTimesMore(length - 1);
    }
  }

  lemma TenTimesMore(k: nat)
    ensures Pow10(k + 1) == 10 * Pow10(k)
  {
  }

  /** The `int` of a string: with room by its length, it is read exactly and nothing overflows, also
      not in the accumulator. */
  method IntOfString(s: string) returns (i: Int)
    requires IsDecimal(s) && |s| <= 1223
    ensures fresh(i) && i.Invariant() && i.Value() == SignedReading(s)
  {
    hide Pow, Reading;
    i := IntOps.AllocateIntValue(DigitsForS(|s|));
    DigitsForSIsLeast(|Unsigned(s)|, i.h.Length);
    SetS(s, i);
  }
}
