/** Little-endian numbers in base 65536: the half-words of a big integer read as one natural
    number.  Everything the big-integer loops need about carries, borrows, shifts and
    comparison is proved here once, on sequences. */
module Digits {

  /** A half-word (`uint16_t`). */
  type Digit = n: nat | n < 65536

  /** 65536 to the power `k`. */
  function Pow(k: nat): (p: nat)
    ensures 1 <= p
  {
    if k == 0 then 1 else 65536 * Pow(k - 1)
  }

  /** `x` with `k` zero digits appended.  Loops hide this body and reason by lemmas. */
  function Scale(x: nat, k: nat): nat {
    x * Pow(k)
  }

  /** A product that loops treat as a whole. */
  function Times(x: nat, y: nat): nat {
    x * y
  }

  /** The number whose least significant digit is `s[0]`. */
  function Val(s: seq<Digit>): nat {
    if |s| == 0 then 0 else Val(s[..|s| - 1]) + s[|s| - 1] * Pow(|s| - 1)
  }

  /** Digit `k`, reading zeros beyond the end. */
  function At(s: seq<Digit>, k: nat): Digit {
    if k < |s| then s[k] else 0
  }

  /** The value of the `k` lowest digits. */
  function Low(s: seq<Digit>, k: nat): nat {
    Val(s[..if k < |s| then k else |s|])
  }

  lemma {:induction false} PowAdd(a: nat, b: nat)
    ensures Pow(a + b) == Pow(a) * Pow(b)
  {
    if a == 0 {
    } else {
      PowAdd(a - 1, b);
      calc {
        Pow(a + b);
        65536 * Pow(a - 1 + b);
        65536 * (Pow(a - 1) * Pow(b));
        (65536 * Pow(a - 1)) * Pow(b);
      }
    }
  }

  lemma {:induction false} PowMonotonic(a: nat, b: nat)
    requires a <= b
    ensures Pow(a) <= Pow(b)
    decreases b - a
  {
    if a < b {
      PowMonotonic(a, b - 1);
    }
  }

  lemma PowNext(k: nat)
    ensures Pow(k + 1) == 65536 * Pow(k)
  {
  }

  lemma MulMonotonic(x: nat, y: nat, p: nat)
    requires x <= y
    ensures x * p <= y * p
  {
  }

  /** Splitting a multiplier into quotient and remainder. */
  lemma MulDivMod(n: nat, q: nat, p: nat)
    requires q > 0
    ensures (n % q) * p + (n / q) * (q * p) == n * p
  {
    var r, m := n % q, n / q;
    assert n == r + m * q;
    assert m * (q * p) == (m * q) * p;
  }

  lemma ScaleFacts(x: nat, k: nat)
    ensures Scale(0, k) == 0
    ensures Scale(1, k) == Pow(k)
    ensures Scale(x, 0) == x
    ensures 0 < x ==> Pow(k) <= Scale(x, k)
  {
    if 0 < x {
      MulMonotonic(1, x, Pow(k));
    }
  }

  lemma {:induction false} ValBound(s: seq<Digit>)
    ensures Val(s) < Pow(|s|)
  {
    if |s| > 0 {
      ValBound(s[..|s| - 1]);
      MulMonotonic(s[|s| - 1], 65535, Pow(|s| - 1));
    }
  }

  lemma ValAppend(s: seq<Digit>, x: Digit)
    ensures Val(s + [x]) == Val(s) + Scale(x, |s|)
  {
    assert (s + [x])[..|s|] == s;
  }

  /** Taking one digit more. */
  lemma ValTakeNext(s: seq<Digit>, k: nat)
    requires k < |s|
    ensures Val(s[..k + 1]) == Val(s[..k]) + Scale(s[k], k)
  {
    assert s[..k + 1][..k] == s[..k];
  }

  lemma LowNext(s: seq<Digit>, k: nat)
    ensures Low(s, k + 1) == Low(s, k) + Scale(At(s, k), k)
  {
    if k < |s| {
      ValTakeNext(s, k);
    }
  }

  lemma LowAll(s: seq<Digit>, k: nat)
    requires |s| <= k
    ensures Low(s, k) == Val(s)
  {
    assert s[..|s|] == s;
  }

  /** A number splits at any position. */
  lemma {:induction false} ValSplit(s: seq<Digit>, k: nat)
    requires k <= |s|
    ensures Val(s) == Val(s[..k]) + Scale(Val(s[k..]), k)
    decreases |s|
  {
    if k == |s| {
      assert s[..k] == s;
    } else {
      var n := |s| - 1;
      ValSplit(s[..n], k);
      assert s[..n][..k] == s[..k];
      assert s[..n][k..] == s[k..][..n - k];
      PowAdd(n - k, k);
      var lo, hi, x := Val(s[..k]), Val(s[k..][..n - k]), s[n];
      assert Val(s[k..]) == hi + x * Pow(n - k);
      calc {
        Val(s);
        lo + hi * Pow(k) + x * (Pow(n - k) * Pow(k));
        { MulThree(hi, x, Pow(n - k), Pow(k)); }
        lo + (hi + x * Pow(n - k)) * Pow(k);
      }
    }
  }

  lemma MulThree(h: int, x: int, p: int, q: int)
    ensures h * q + x * (p * q) == (h + x * p) * q
  {
    calc {
      (h + x * p) * q;
      h * q + (x * p) * q;
      { assert (x * p) * q == x * (p * q); }
      h * q + x * (p * q);
    }
  }

  lemma LowAtMost(s: seq<Digit>, k: nat)
    ensures Low(s, k) <= Val(s)
    ensures Low(s, k) < Pow(k)
  {
    if k < |s| {
      ValSplit(s, k);
      ValBound(s[..k]);
      assert 0 <= Val(s[k..]) * Pow(k);
    } else {
      LowAll(s, k);
      ValBound(s);
      PowMonotonic(|s|, k);
    }
  }

  /** Everything from digit `k` on is a multiple of `Pow(k)`. */
  lemma HighPart(s: seq<Digit>, k: nat) returns (hi: nat)
    ensures Val(s) == Low(s, k) + Scale(hi, k)
    ensures |s| <= k ==> hi == 0
  {
    if k < |s| {
      ValSplit(s, k);
      hi := Val(s[k..]);
    } else {
      LowAll(s, k);
      hi := 0;
    }
  }

  lemma {:induction false} ValZeros(s: seq<Digit>)
    requires forall i :: 0 <= i < |s| ==> s[i] == 0
    ensures Val(s) == 0
  {
    if |s| > 0 {
      ValZeros(s[..|s| - 1]);
    }
  }

  /** Leading zeros do not count. */
  lemma ValTrim(s: seq<Digit>, k: nat)
    requires k <= |s|
    requires forall i :: k <= i < |s| ==> s[i] == 0
    ensures Val(s) == Val(s[..k])
  {
    ValSplit(s, k);
    ValZeros(s[k..]);
  }

  /** Shifting by whole digits multiplies by a power of the base. */
  lemma ValShift(z: seq<Digit>, s: seq<Digit>)
    requires forall i :: 0 <= i < |z| ==> z[i] == 0
    ensures Val(z + s) == Scale(Val(s), |z|)
  {
    ValSplit(z + s, |z|);
    assert (z + s)[..|z|] == z && (z + s)[|z|..] == s;
    ValZeros(z);
  }

  /** A top digit other than zero is the same as a value that needs every digit. */
  lemma TopDigit(s: seq<Digit>)
    requires |s| > 0
    ensures s[|s| - 1] != 0 <==> Pow(|s| - 1) <= Val(s)
  {
    ValBound(s[..|s| - 1]);
    if s[|s| - 1] != 0 {
      MulMonotonic(1, s[|s| - 1], Pow(|s| - 1));
    }
  }

  /** The highest difference decides: two numbers that agree above digit `k`. */
  lemma CompareBelow(s: seq<Digit>, t: seq<Digit>, k: nat)
    requires |s| == |t| && k <= |s|
    requires s[k..] == t[k..]
    ensures Val(s) - Val(t) == Val(s[..k]) - Val(t[..k])
  {
    ValSplit(s, k);
    ValSplit(t, k);
  }

  /** The 32-bit word whose half-words are digits `k` and `k + 1`. */
  function Word(s: seq<Digit>, k: nat): (w: nat)
    requires k + 2 <= |s|
  {
    var lo: nat, hi: nat := s[k], s[k + 1];
    lo + 65536 * hi
  }

  lemma WordOf(s: seq<Digit>, k: nat)
    requires k + 2 <= |s|
    ensures Word(s, k) == Word([s[k], s[k + 1]], 0)
  {
  }

  lemma SameWord(s: seq<Digit>, t: seq<Digit>, k: nat)
    requires k + 2 <= |s| && k + 2 <= |t| && Word(s, k) == Word(t, k)
    ensures s[k] == t[k] && s[k + 1] == t[k + 1]
  {
  }

  lemma WordAt(s: seq<Digit>, k: nat)
    requires k + 2 <= |s|
    ensures Val(s[..k + 2]) == Val(s[..k]) + Scale(Word(s, k), k)
  {
    ValTakeNext(s, k);
    ValTakeNext(s, k + 1);
    var x: nat, y: nat, p := s[k], s[k + 1], Pow(k);
    assert Pow(k + 1) == 65536 * p;
    assert (x + 65536 * y) * p == x * p + y * (65536 * p);
  }

  /** Comparing from the top, a word at a time: the first difference decides. */
  lemma CompareWord(s: seq<Digit>, t: seq<Digit>, k: nat)
    requires |s| == |t| && k + 2 <= |s|
    requires forall i :: k + 2 <= i < |s| ==> s[i] == t[i]
    requires Word(s, k) < Word(t, k)
    ensures Val(s) < Val(t)
  {
    assert s[k + 2..] == t[k + 2..];
    CompareBelow(s, t, k + 2);
    WordAt(s, k);
    WordAt(t, k);
    ValBound(s[..k]);
    WordGap(Val(s[..k]), Word(s, k), Word(t, k), Pow(k));
  }

  lemma WordGap(lo: nat, x: nat, y: nat, p: nat)
    requires lo < p && x < y
    ensures lo + x * p < y * p
  {
    MulMonotonic(x + 1, y, p);
  }

  /** A longer number without leading zeros is larger. */
  lemma CompareLength(s: seq<Digit>, t: seq<Digit>)
    requires |t| < |s| && s[|s| - 1] != 0
    ensures Val(t) < Val(s)
  {
    TopDigit(s);
    ValBound(t);
    PowMonotonic(|t|, |s| - 1);
  }

  // ---- one step of the carry and borrow loops ----

  /** Adding digit `k`: what was written so far plus the carry accounts for the digits read. */
  lemma CarryStep(done: nat, carry: nat, x: nat, y: nat, out: nat, carry': nat, la: nat, lb: nat, k: nat)
    requires done + Scale(carry, k) == la + lb
    requires x + y + carry == out + 65536 * carry'
    ensures done + Scale(out, k) + Scale(carry', k + 1) == (la + Scale(x, k)) + (lb + Scale(y, k))
  {
    var p := Pow(k);
    calc {
      done + out * p + carry' * (65536 * p);
      { assert carry' * (65536 * p) == (65536 * carry') * p; }
      done + out * p + (65536 * carry') * p;
      done + (out + 65536 * carry') * p;
      done + (x + y + carry) * p;
      done + x * p + y * p + carry * p;
    }
  }

  /** Subtracting digit `k`. */
  lemma BorrowStep(done: nat, borrow: nat, x: nat, y: nat, out: nat, borrow': nat, la: nat, lb: nat, k: nat)
    requires done + lb == la + Scale(borrow, k)
    requires x - y - borrow == out - 65536 * borrow'
    ensures done + Scale(out, k) + (lb + Scale(y, k)) == (la + Scale(x, k)) + Scale(borrow', k + 1)
  {
    var p := Pow(k);
    calc {
      (la + x * p) + borrow' * (65536 * p);
      { assert borrow' * (65536 * p) == (65536 * borrow') * p; }
      la + x * p + (65536 * borrow') * p;
      la + (x + 65536 * borrow') * p;
      la + (out + y + borrow) * p;
      la + out * p + y * p + borrow * p;
    }
  }

  /** Digit `k`, with `k` at or beyond `Pow`'s exponent `m`, is too high to fit. */
  lemma ScaleTooHigh(x: nat, k: nat, m: nat)
    requires 0 < x && m <= k
    ensures Pow(m) <= Scale(x, k)
  {
    ScaleFacts(x, k);
    PowMonotonic(m, k);
  }

  /** A difference of two naturals is at least its low part. */
  lemma LowDifference(a: seq<Digit>, b: seq<Digit>, k: nat, diff: nat, borrow: nat)
    requires Val(b) <= Val(a) && borrow <= 1
    requires diff + Low(b, k) == Low(a, k) + Scale(borrow, k)
    requires diff < Pow(k)
    ensures diff <= Val(a) - Val(b)
    ensures |a| <= k ==> diff == Val(a) - Val(b)
  {
    hide Val, Pow, Low;
    var ha := HighPart(a, k);
    var hb := HighPart(b, k);
    HighDifference(ha, hb, borrow, Pow(k), Val(a) - Val(b), diff);
  }

  lemma HighDifference(ha: nat, hb: nat, borrow: nat, p: nat, gap: nat, diff: nat)
    requires gap == ha * p - hb * p - borrow * p + diff
    requires diff < p
    ensures diff <= gap
    ensures ha == 0 ==> diff == gap
  {
    var q := ha - hb - borrow;
    assert gap == q * p + diff;
    if q < 0 {
      MulMonotonic(1, -q, p);
    }
  }

  lemma QuotientUnique(n: nat, p: nat, q: nat, r: nat)
    requires n == r + q * p && r < p
    ensures q == n / p && r == n % p
  {
    var q', r' := n / p, n % p;
    assert n == r' + q' * p;
    if q < q' {
      MulMonotonic(q + 1, q', p);
    } else if q' < q {
      MulMonotonic(q' + 1, q, p);
    }
  }
}
