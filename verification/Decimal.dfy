/** Decimal text of big integers: printing by repeated division by 10^19 (`int_to_s`), reading
    by multiplying and adding (`int_set_s`), and that reading undoes printing. */
module Decimal {
  import opened Digits
  import opened BigInt
  import opened BigIntDiv

  // ---- the notation ----

  function DigitChar(d: nat): (c: char)
    requires d < 10
  {
    ['0', '1', '2', '3', '4', '5', '6', '7', '8', '9'][d]
  }

  /** The decimal digits of `n`, most significant first; nothing for zero. */
  function Numeral(n: nat): string {
    if n == 0 then "" else Numeral(n / 10) + [DigitChar(n % 10)]
  }

  /** Canonical decimal: no leading zeros, `0` for zero, a minus sign before the others. */
  function Canonical(v: int): string {
    if v == 0 then "0" else if v < 0 then "-" + Numeral(-v) else Numeral(v)
  }

  predicate IsDigit(c: char) {
    '0' <= c <= '9'
  }

  predicate IsNumeral(s: string) {
    forall i :: 0 <= i < |s| ==> IsDigit(s[i])
  }

  /** The number that a string of digits denotes. */
  function Reading(s: string): nat
    requires IsNumeral(s)
  {
    if |s| == 0 then 0 else 10 * Reading(s[..|s| - 1]) + (s[|s| - 1] as int - '0' as int)
  }

  /** Digits with an optional minus sign, as `int_set_s` accepts them. */
  predicate IsDecimal(s: string) {
    IsNumeral(Unsigned(s))
  }

  function Unsigned(s: string): string {
    if |s| > 0 && s[0] == '-' then s[1..] else s
  }

  function SignedReading(s: string): int
    requires IsDecimal(s)
  {
    var v: int := Reading(Unsigned(s));
    if |s| > 0 && s[0] == '-' then -v else v
  }

  lemma {:induction false} NumeralReads(n: nat)
    ensures IsNumeral(Numeral(n)) && Reading(Numeral(n)) == n
  {
    if n > 0 {
      NumeralReads(n / 10);
      assert Numeral(n)[..|Numeral(n)| - 1] == Numeral(n / 10);
    }
  }

  /** Reading the canonical text gives the number back. */
  lemma CanonicalRoundTrip(v: int)
    ensures IsDecimal(Canonical(v)) && SignedReading(Canonical(v)) == v
  {
    NumeralReads(if v < 0 then -v else v);
    if v == 0 {
      assert Reading("0") == 10 * Reading("0"[..0]) + 0;
    } else {
      CanonicalShape(if v < 0 then -v else v);
    }
  }

  /** No leading zero, no stray sign. */
  lemma {:induction false} CanonicalShape(n: nat)
    requires 0 < n
    ensures |Numeral(n)| > 0 && Numeral(n)[0] != '0' && Numeral(n)[0] != '-'
  {
    if n >= 10 {
      CanonicalShape(n / 10);
    }
  }

  // ---- printing ----

  const TEN19: nat := 10_000_000_000_000_000_000

  /** One more digit at the end makes ten times the number and the digit. */
  lemma WrittenByDigits(n: nat, d: nat)
    requires d < 10
    ensures Canonical(10 * n + d) == (if n == 0 then "" else Canonical(n)) + ["0123456789"[d]]
    ensures n > 0 ==> Canonical(-(n as int)) == "-" + Canonical(n)
  {
    assert (10 * n + d) / 10 == n && (10 * n + d) % 10 == d;
    assert Numeral(0) == "" && (n == 0 && d == 0 ==> Canonical(0) == "" + ["0123456789"[0]]);
  }

  /** Whatever decimal is read: zeros in front do not count, and a digit at the end counts once. */
  lemma {:induction false} ReadByDigits(s: string, d: nat)
    requires d < 10 && IsNumeral(s)
    ensures SignedReading("") == 0
    ensures SignedReading(s + ["0123456789"[d]]) == 10 * SignedReading(s) + d
    ensures SignedReading("-" + s) == -SignedReading(s)
  {
    var t := s + ["0123456789"[d]];
    assert t[..|t| - 1] == s && Unsigned(t) == t && Unsigned("-" + s) == s;
  }

  function Pow10(k: nat): (p: nat)
    ensures 1 <= p
  {
    if k == 0 then 1 else 10 * Pow10(k - 1)
  }

  lemma TenToTheNineteenth()
    ensures Pow10(19) == TEN19
  {
    assert Pow10(4) == 10_000;
    assert Pow10(8) == 10_000 * Pow10(4);
    assert Pow10(12) == 10_000 * Pow10(8);
    assert Pow10(16) == 10_000 * Pow10(12);
    assert Pow10(19) == 1000 * Pow10(16);
  }

  /** The constant `tenToTheNineteen`, four digits of a four-digit buffer. */
  method NewTenToTheNineteen() returns (t: Int)
    ensures fresh(t) && fresh(t.h) && t.h.Length == 4 && t.d == 4
    ensures t.Invariant() && t.Value() == TEN19
  {
    t := new Int(4);
    t.h[0], t.h[1], t.h[2], t.h[3] := 0, 0x89e8, 0x2304, 0x8ac7;
    t.d := 4;
    assert t.h[..4] == [0, 0x89e8, 0x2304, 0x8ac7];
    FourDigitValue(0, 0x89e8, 0x2304, 0x8ac7);
  }

  lemma FourDigitValue(a: Digit, b: Digit, c: Digit, d: Digit)
    ensures Val([a, b, c, d]) == a as int + 65536 * b as int + TWO32 * (c as int + 65536 * d as int)
  {
    var s := [a, b, c, d];
    ValTakeNext(s, 0);
    ValTakeNext(s, 1);
    ValTakeNext(s, 2);
    ValTakeNext(s, 3);
    assert s[..4] == s && s[..0] == [];
    PowTwo();
    assert Pow(0) == 1;
    assert Pow(3) == 65536 * Pow(2);
  }

  /** Up to four digits as one 64-bit number: `FourDigits` filled from the words of `r`. */
  method Word64(r: Int) returns (v: nat)
    requires r.Valid() && r.Norm() && r.h.Length == 4
    ensures v == r.Abs()
  {
    hide Val;
    v := r.h[0] as int + 65536 * r.h[1] as int;
    if r.d > 2 {
      v := v + TWO32 * (r.h[2] as int + 65536 * r.h[3] as int);
    }
    ghost var x := if r.d > 2 then [r.h[0], r.h[1], r.h[2], r.h[3]] else [r.h[0], r.h[1], 0, 0];
    FourDigitValue(x[0], x[1], x[2], x[3]);
    assert x == [x[0], x[1], x[2], x[3]];
    ValTrim(x, r.d);
    assert x[..r.d] == r.h[..r.d];
  }

  /** Splitting off one decimal digit of a number whose low `k` decimal digits are `rem`. */
  lemma DropDigit(q: nat, k: nat, rem: nat)
    requires 0 < k
    ensures (q * Pow10(k) + rem) / 10 == q * Pow10(k - 1) + rem / 10
    ensures (q * Pow10(k) + rem) % 10 == rem % 10
    ensures rem < Pow10(k) ==> rem / 10 < Pow10(k - 1)
  {
    var x := q * Pow10(k - 1);
    assert q * Pow10(k) == 10 * x;
  }

  lemma NumeralStep(w: nat, rest: string)
    requires 0 < w
    ensures Numeral(w) + rest == Numeral(w / 10) + ([DigitChar(w % 10)] + rest)
    ensures |Numeral(w)| >= 1
  {
    assert (Numeral(w / 10) + [DigitChar(w % 10)]) + rest == Numeral(w / 10) + ([DigitChar(w % 10)] + rest);
  }

  /** The inner loop of `int_to_s`: up to 19 digits of one remainder, without leading zeros when
      nothing remains above it. */
  method WriteChunk(s: array<char>, end: nat, start: nat, rem0: nat, leading: bool, ghost q: nat, ghost all: string)
    returns (out: nat)
    requires 0 < s.Length && end <= s.Length - 1 && start <= end
    requires rem0 < TEN19 && (leading <==> q == 0)
    requires all == Numeral(q * TEN19 + rem0) + s[start..end] && |all| <= end
    modifies s
    ensures out <= start
    ensures all == Numeral(q) + s[out..end]
    ensures forall i :: start <= i < s.Length ==> s[i] == old(s[i])
  {
    hide Numeral, Pow10;
    TenToTheNineteenth();
    out := start;
    var rem := rem0;
    var c := 0;
    while c < 19 && out > 0
      invariant 0 <= c <= 19 && out <= start
      invariant 0 <= rem < Pow10(19 - c)
      invariant all == Numeral(q * Pow10(19 - c) + rem) + s[out..end]
      invariant forall i :: start <= i < s.Length ==> s[i] == old(s[i])
    {
      var ch := DigitChar(rem % 10);
      ghost var w := q * Pow10(19 - c) + rem;
      ghost var written := s[out..end];
      DropDigit(q, 19 - c, rem);
      PositiveProduct(q, Pow10(19 - c));
      if !leading || rem != 0 {
        NumeralStep(w, written);
        out := out - 1;
        s[out] := ch;
        assert s[out..end] == [ch] + written;
      }
      rem := rem / 10;
      c := c + 1;
    }
    PowTen0();
    if c < 19 {
      NumeralEmpty(q * Pow10(19 - c) + rem, all, s[out..end]);
      PositiveProduct(q, Pow10(19 - c));
    }
  }

  lemma PositiveProduct(q: nat, p: nat)
    requires 1 <= p
    ensures q <= q * p
  {
    MulMonotonic(1, p, q);
  }

  lemma PowTen0()
    ensures Pow10(0) == 1
  {
  }

  /** No digits are left when the text already fills the room. */
  lemma NumeralEmpty(w: nat, all: string, written: string)
    requires all == Numeral(w) + written && |all| <= |written|
    ensures w == 0
  {
  }

  /** `int_to_s`: writes the text right-aligned and terminated in `s`, and returns where it
      starts. */
  method ToS(i: Int, s: array<char>) returns (out: nat)
    requires i.Invariant()
    requires |Canonical(i.Value())| + 1 <= s.Length          // the buffer is large enough
    modifies s
    ensures out < s.Length
    ensures s[out..s.Length - 1] == Canonical(i.Value()) && s[s.Length - 1] == '\0'
  {
    hide Val, Pow, Numeral, Int.Abs, Int.Norm, Canonical;
    var end := s.Length - 1;
    s[end] := '\0';
    var v := CopyAbs(i);
    ghost var all := Numeral(i.Abs());
    CanonicalText(i);
    out := PrintMagnitude(v, s, end, all);
    out := PrintSign(i.neg, s, end, out, all);
  }

  /** The loop of `int_to_s`, on its working copy. */
  method PrintMagnitude(v: Int, s: array<char>, end: nat, ghost all: string) returns (out: nat)
    requires v.Invariant() && !v.neg && v.h.Length == 254
    requires end == s.Length - 1 && all == Numeral(v.Abs()) && |all| <= end
    modifies v, v.h, s
    ensures out <= end && s[end] == old(s[end]) && s[out..end] == all
  {
    hide Val, Pow, Numeral, Int.Abs, Int.Norm;
    out := end;
    var r := new Int(4);
    var tenToTheNineteen := NewTenToTheNineteen();
    var zero := IsZero(v);
    while !zero
      invariant v.Invariant() && !v.neg && r.Valid()
      invariant tenToTheNineteen.Invariant() && tenToTheNineteen.Value() == TEN19 && tenToTheNineteen.d == 4
      invariant zero <==> v.Abs() == 0
      invariant out <= end && s[end] == old(s[end]) && all == Numeral(v.Abs()) + s[out..end]
      decreases v.Abs()
    {
      out, zero := PrintChunk(v, tenToTheNineteen, r, s, end, out, all);
    }
    NumeralZero();
  }

  /** The end of `int_to_s`: a zero when nothing was written, otherwise the sign. */
  method PrintSign(neg: bool, s: array<char>, end: nat, start: nat, ghost all: string) returns (out: nat)
    requires start <= end == s.Length - 1 && s[start..end] == all
    requires |if all == "" then "0" else if neg then "-" + all else all| <= end
    modifies s
    ensures out <= end && s[end] == old(s[end])
    ensures s[out..end] == (if all == "" then "0" else if neg then "-" + all else all)
  {
    out := start;
    if out == end {
      out := out - 1;
      s[out] := '0';
    } else if neg {
      out := out - 1;
      s[out] := '-';
      assert s[out..end] == "-" + all;
    }
  }

  /** One round of `int_to_s`: divide by 10^19 and write the remainder. */
  method PrintChunk(v: Int, tenToTheNineteen: Int, r: Int, s: array<char>, end: nat, start: nat, ghost all: string)
    returns (out: nat, zero: bool)
    requires v.Invariant() && !v.neg && v.h.Length == 254 && v.Abs() != 0
    requires tenToTheNineteen.Invariant() && tenToTheNineteen.Value() == TEN19 && tenToTheNineteen.d == 4
    requires r.Valid() && r.h.Length == 4 && Distinct(v, tenToTheNineteen, r)
    requires start <= end == s.Length - 1
    requires all == Numeral(v.Abs()) + s[start..end] && |all| <= end
    modifies v, v.h, r, r.h, s
    ensures v.Invariant() && !v.neg && v.Abs() < old(v.Abs()) && r.Valid()
    ensures zero <==> v.Abs() == 0
    ensures out <= start && s[end] == old(s[end])
    ensures all == Numeral(v.Abs()) + s[out..end]
  {
    hide Val, Pow, Numeral, Int.Abs, Int.Norm;
    ghost var q := DivideBy19(v, tenToTheNineteen, r);
    var rem := Word64(r);
    var leading := IsZero(v);
    out := WriteChunk(s, end, start, rem, leading, q, all);
    zero := IsZero(v);
  }

  /** The text that `int_to_s` leaves behind, in terms of the digits it has written. */
  lemma CanonicalText(i: Int)
    requires i.Invariant()
    ensures var all := Numeral(i.Abs());
            && Canonical(i.Value()) == (if all == "" then "0" else if i.neg then "-" + all else all)
            && (all == "" ==> i.Abs() == 0)
  {
    NumeralZero();
  }

  lemma NumeralZero()
    ensures Numeral(0) == ""
  {
  }

  /** One division by 10^19 in place. */
  method DivideBy19(v: Int, tenToTheNineteen: Int, r: Int) returns (ghost q: nat)
    requires v.Invariant() && !v.neg && v.h.Length == 254 && v.Abs() != 0
    requires tenToTheNineteen.Invariant() && tenToTheNineteen.Value() == TEN19 && tenToTheNineteen.d == 4
    requires r.Valid() && r.h.Length == 4
    requires Distinct(v, tenToTheNineteen, r)
    modifies v, v.h, r, r.h
    ensures v.Invariant() && !v.neg && v.Abs() == q < old(v.Abs())
    ensures r.Valid() && r.Norm() && r.Abs() < TEN19
    ensures old(v.Abs()) == q * TEN19 + r.Abs()
  {
    hide Val, Pow, Times, TruncDiv, YargRem, SignsDiffer;
    NormBounds(v);
    PowMonotonic(v.d, 254);
    ghost var n := v.Abs();
    NoSignsDiffer(n, TEN19);
    ChunkDivision(n);
    q := n / TEN19;
    if n < TEN19 && 4 < v.d {
      FourDigitBound();
      PowMonotonic(4, v.d - 1);
    }
    Div(v, tenToTheNineteen, v, r);
  }

  lemma NoSignsDiffer(n: int, d: int)
    requires 0 <= n && 0 < d
    ensures !SignsDiffer(n, d)
  {
  }

  lemma FourDigitBound()
    ensures TEN19 < Pow(4)
  {
    PowTwo();
    assert Pow(3) == 65536 * Pow(2);
    assert Pow(4) == 65536 * Pow(3);
  }

  lemma ChunkDivision(n: nat)
    ensures TruncDiv(n, TEN19) == n / TEN19 && YargRem(n, TEN19) == n % TEN19
    ensures n == (n / TEN19) * TEN19 + n % TEN19
    ensures 0 < n ==> n / TEN19 < n
    ensures forall m: nat {:trigger Pow(m)} :: n < Pow(m) ==> n < Times(Pow(m), TEN19)
  {
    forall m: nat {:trigger Pow(m)} | n < Pow(m)
      ensures n < Times(Pow(m), TEN19)
    {
      MulMonotonic(1, TEN19, Pow(m));
    }
  }

  // ---- reading ----

  lemma ReadingNext(s: string, k: nat)
    requires IsNumeral(s) && k < |s|
    ensures IsNumeral(s[..k]) && IsNumeral(s[..k + 1])
    ensures Reading(s[..k + 1]) == 10 * Reading(s[..k]) + (s[k] as int - '0' as int)
  {
    assert s[..k + 1][..k] == s[..k];
  }

  // ---- what the target holds while a decimal is read ----

  const ACC_DIGITS: nat := 254

  /** The overflow flag once raised stays; until then the target holds some number. */
  datatype Reader = Flagged | Holds(value: nat)

  /** What `int_mul` leaves in its accumulator of 254 digits when ten times `w` does not fit: the top
      digit of `w` is not multiplied, or the last carry is lost. */
  ghost function LostTen(w: nat): int {
    var top, p := w / Pow(ACC_DIGITS - 1), Pow(ACC_DIGITS - 1);
    if 65536 <= 10 * top then 10 * (w % p) else 10 * w - Pow(ACC_DIGITS)
  }

  lemma LostTenBound(w: nat)
    requires w < Pow(ACC_DIGITS) <= 10 * w
    ensures 0 <= LostTen(w) && LostTen(w) + 9 < Pow(ACC_DIGITS)
  {
    hide Pow;
    var p := Pow(ACC_DIGITS - 1);
    PowNext(ACC_DIGITS - 1);
    assert Pow(ACC_DIGITS) == 65536 * p;
    DivisionParts(w, p);
  }

  lemma DivisionParts(w: nat, p: nat)
    requires 0 < p
    ensures w == w % p + (w / p) * p
    ensures 10 * (w / p) < 65536 ==> 10 * w < 65535 * p + 10 * p
  {
    if 10 * (w / p) < 65536 {
      MulMonotonic(10 * (w / p), 65535, p);
      assert (10 * (w / p)) * p == 10 * ((w / p) * p);
    }
  }

  lemma LeftoverIsLost(bv: seq<Digit>)
    requires |bv| == ACC_DIGITS
    ensures Leftover(10, bv, ACC_DIGITS) == LostTen(Val(bv))
  {
    hide Pow, Low, Val;
    var k := ACC_DIGITS - 1;
    LowNext(bv, k);
    LowAll(bv, ACC_DIGITS);
    LowAtMost(bv, k);
    QuotientUnique(Val(bv), Pow(k), bv[k], Low(bv, k));
  }

  /** One character more, in a target of `m` digits: ten times the number in the accumulator, whose
      own flag nobody looks at, and then the digit. */
  ghost function ReadStep(r: Reader, x: nat, m: nat): Reader
    requires x <= 9 && (r.Holds? ==> r.value < Pow(m)) && m <= ACC_DIGITS
  {
    match r
    case Flagged => Flagged
    case Holds(w) =>
      PowMonotonic(m, ACC_DIGITS);
      if 10 * w < Pow(ACC_DIGITS) then Stored(10 * w + x, m)
      else
        LostTenBound(w);
        Stored(LostTen(w) + x, m)
  }

  ghost function Stored(n: nat, m: nat): (r: Reader)
    ensures r.Holds? ==> r.value < Pow(m)
  {
    if n < Pow(m) then Holds(n) else Flagged
  }

  ghost function ReadAll(s: string, m: nat): (r: Reader)
    requires IsNumeral(s) && m <= ACC_DIGITS
    ensures r.Holds? ==> r.value < Pow(m)
  {
    if |s| == 0 then Holds(0)
    else ReadStep(ReadAll(s[..|s| - 1], m), s[|s| - 1] as int - '0' as int, m)
  }

  lemma ReadAllNext(s: string, k: nat, m: nat)
    requires IsNumeral(s) && k < |s| && m <= ACC_DIGITS
    ensures IsNumeral(s[..k]) && IsNumeral(s[..k + 1])
    ensures ReadAll(s[..k + 1], m) == ReadStep(ReadAll(s[..k], m), s[k] as int - '0' as int, m)
  {
    assert s[..k + 1][..k] == s[..k];
  }

  /** As long as the number fits, the target holds it. */
  lemma {:induction false} FitsIsHeld(s: string, m: nat)
    requires IsNumeral(s) && m <= ACC_DIGITS && Reading(s) < Pow(m)
    ensures ReadAll(s, m) == Holds(Reading(s))
  {
    hide Pow;
    if |s| > 0 {
      PowMonotonic(m, ACC_DIGITS);
      FitsIsHeld(s[..|s| - 1], m);
    }
  }

  /** At the first character with which the number does not fit, the flag is raised if and only if ten
      times the number before it still fits the accumulator. */
  lemma FirstThatDoesNotFit(s: string, m: nat)
    requires IsNumeral(s) && |s| > 0 && m <= ACC_DIGITS
    requires Reading(s[..|s| - 1]) < Pow(m) <= Reading(s)
    ensures ReadAll(s, m).Flagged? <==> 10 * Reading(s[..|s| - 1]) < Pow(ACC_DIGITS)
  {
    hide Pow, LostTen;
    var v := Reading(s[..|s| - 1]);
    FitsIsHeld(s[..|s| - 1], m);
    PowMonotonic(m, ACC_DIGITS);
    if Pow(ACC_DIGITS) <= 10 * v {
      LostTenBound(v);
      TenTimesFits(v, m);
    }
  }

  /** Only a target as large as the accumulator can hold a number ten times which does not fit it. */
  lemma TenTimesFits(v: nat, m: nat)
    requires m <= ACC_DIGITS && v < Pow(m)
    ensures m < ACC_DIGITS ==> 10 * v < Pow(ACC_DIGITS)
  {
    hide Pow;
    if m < ACC_DIGITS {
      PowNext(m);
      PowMonotonic(m + 1, ACC_DIGITS);
    }
  }

  /** The flag in smaller targets: raised exactly on the decimals that do not fit. */
  lemma {:induction false} FlagIsExact(s: string, m: nat)
    requires IsNumeral(s) && m < ACC_DIGITS
    ensures ReadAll(s, m).Flagged? <==> Pow(m) <= Reading(s)
  {
    hide Pow, LostTen;
    PowMonotonic(0, m);
    PowZero();
    if Reading(s) < Pow(m) {
      FitsIsHeld(s, m);
    } else {
      var t := s[..|s| - 1];
      FlagIsExact(t, m);
      if Reading(t) < Pow(m) {
        TenTimesFits(Reading(t), m);
        FirstThatDoesNotFit(s, m);
      }
    }
  }

  /** The largest number of `m` digits, with a zero behind it. */
  ghost function LongestAndZero(m: nat): (s: string)
    requires 1 <= m
    ensures IsNumeral(s) && |s| > 1 && s[0] != '-'
  {
    NumeralReads(Pow(m) - 1);
    LongestIsLong(m);
    Numeral(Pow(m) - 1) + "0"
  }

  lemma LongestIsLong(m: nat)
    requires 1 <= m
    ensures 10 < Pow(m)
    ensures |Numeral(Pow(m) - 1)| > 0 && Numeral(Pow(m) - 1)[0] != '-'
  {
    hide Numeral;
    PowMonotonic(1, m);
    CanonicalShape(Pow(m) - 1);
  }

  /** It does not fit, but the flag stays clear and another number is held. */
  lemma OverflowIsLost(m: nat)
    requires m == ACC_DIGITS
    ensures Reading(LongestAndZero(m)) == 10 * (Pow(m) - 1) >= Pow(m)
    ensures ReadAll(LongestAndZero(m), m) == Holds(10 * (Pow(m - 1) - 1))
  {
    hide Pow, LostTen, Numeral;
    var v := Pow(m) - 1;
    var s := LongestAndZero(m);
    NumeralReads(v);
    assert s[..|s| - 1] == Numeral(v);
    LongestIsLong(m);
    FitsIsHeld(Numeral(v), m);
    LostTenBound(v);
    LostTenOfLongest(m);
  }

  lemma LostTenOfLongest(m: nat)
    requires m == ACC_DIGITS
    ensures LostTen(Pow(m) - 1) == 10 * (Pow(m - 1) - 1)
  {
    hide Pow;
    var p := Pow(m - 1);
    PowNext(m - 1);
    QuotientUnique(Pow(m) - 1, p, 65535, p - 1);
  }

  /** The overflow flag of `int_set_s` is exact on every decimal if and only if the target is smaller
      than the accumulator. */
  lemma FlagIsExactIff(m: nat)
    requires 1 <= m <= ACC_DIGITS
    ensures (forall s: string :: IsNumeral(s) ==> (ReadAll(s, m).Flagged? <==> Pow(m) <= Reading(s))) <==> m < ACC_DIGITS
  {
    hide Pow, ReadAll, Reading, LongestAndZero, IsNumeral;
    if m < ACC_DIGITS {
      forall s: string | IsNumeral(s) ensures ReadAll(s, m).Flagged? <==> Pow(m) <= Reading(s) {
        FlagIsExact(s, m);
      }
    } else {
      OverflowIsLost(m);
      var s := LongestAndZero(m);
      assert IsNumeral(s) && !ReadAll(s, m).Flagged? && Pow(m) <= Reading(s);
    }
  }

  /** The target after the digits of a number: what `ReadAll` says, and normalised while it fits. */
  ghost predicate ReadSoFar(i: Int, r: Reader, v: nat)
    reads i, i.h
  {
    && i.Valid() && !i.neg
    && (i.overflow <==> r.Flagged?)
    && (r.Holds? ==> i.Abs() == r.value < Pow(i.h.Length))
    && (v < Pow(i.h.Length) ==> r == Holds(v) && i.Norm())
  }

  /** `int_set_s`.  The decimal is read exactly whenever it fits; what is held and whether the flag is
      raised in any case is what `ReadAll` says. */
  method SetS(s: string, i: Int)
    requires i.Valid() && IsDecimal(s)
    modifies i, i.h
    ensures i.Valid()
    ensures Reading(Unsigned(s)) < Pow(i.h.Length) ==> i.Invariant() && i.Value() == SignedReading(s)
    ensures var r := ReadAll(Unsigned(s), i.h.Length);
            (i.overflow <==> r.Flagged?) && (r.Holds? ==> i.Abs() == r.value)
    ensures i.h.Length < ACC_DIGITS ==> (i.overflow <==> Pow(i.h.Length) <= Reading(Unsigned(s)))
  {
    hide Val, Pow, Reading, ReadAll, ReadSoFar, Int.Abs, Int.Norm, LostTen;
    Init(i);
    var neg := |s| > 0 && s[0] == '-';
    ghost var body := Unsigned(s);
    ReadStart(i, body);
    ReadDigits(s, if neg then 1 else 0, i);
    ReadParts(i, ReadAll(body, i.h.Length), Reading(body));
    if i.h.Length < ACC_DIGITS {
      FlagIsExact(body, i.h.Length);
    }
    i.neg := neg;
  }

  /** The loop of `int_set_s`, from the first digit on. */
  method ReadDigits(s: string, start: nat, i: Int)
    requires i.Valid() && start <= |s| && IsNumeral(s[start..])
    requires ReadSoFar(i, ReadAll(s[start..][..0], i.h.Length), 0)
    modifies i, i.h
    ensures ReadSoFar(i, ReadAll(s[start..], i.h.Length), Reading(s[start..]))
  {
    hide Val, Pow, Reading, ReadAll, ReadSoFar, Int.Abs, Int.Norm, LostTen;
    var digit := new Int(2);
    var acc := new Int(254);
    var ten := NewTen();
    ghost var body, m := s[start..], i.h.Length;
    NothingRead(body);
    var k := start;
    while k < |s|
      invariant start <= k <= |s|
      invariant ReadSoFar(i, ReadAll(body[..k - start], m), Reading(body[..k - start]))
      invariant ten.Invariant() && ten.Value() == 10 && ten.d == 1 && !ten.neg
      invariant digit.Valid() && digit.h.Length == 2 && acc.Valid() && acc.h.Length == 254
      invariant fresh(digit) && fresh(acc) && fresh(ten) && fresh(digit.h) && fresh(acc.h) && fresh(ten.h)
    {
      ReadingNext(body, k - start);
      ReadAllNext(body, k - start, m);
      ReadDigit(i, ten, digit, acc, s[k], ReadAll(body[..k - start], m), Reading(body[..k - start]));
      k := k + 1;
    }
    assert body[..|body|] == body;
  }

  lemma NothingRead(body: string)
    ensures Reading(body[..0]) == 0
  {
  }

  /** `int_set_s` on a decimal that does not fit its 254 digits: no flag, and another number. */
  method LoseOverflow(s: string, i: Int)
    requires i.Valid() && i.h.Length == ACC_DIGITS && s == LongestAndZero(i.h.Length)
    modifies i, i.h
    ensures IsDecimal(s) && SignedReading(s) == 10 * (Pow(i.h.Length) - 1) >= Pow(i.h.Length)
    ensures i.Valid() && !i.overflow && i.Abs() == 10 * (Pow(i.h.Length - 1) - 1)
  {
    hide Pow, ReadAll, LongestAndZero, Int.Abs;
    OverflowIsLost(i.h.Length);
    SetS(s, i);
  }

  lemma ReadParts(i: Int, r: Reader, v: nat)
    requires ReadSoFar(i, r, v)
    ensures i.Valid() && (i.overflow <==> r.Flagged?) && (r.Holds? ==> i.Abs() == r.value)
    ensures v < Pow(i.h.Length) ==> !i.overflow && i.Norm() && i.Abs() == v
  {
  }

  lemma ReadStart(i: Int, body: string)
    requires i.Invariant() && i.Value() == 0 && !i.neg
    ensures Reading(body[..0]) == 0 && ReadSoFar(i, ReadAll(body[..0], i.h.Length), 0)
  {
    PowMonotonic(0, i.h.Length);
  }

  method NewTen() returns (ten: Int)
    ensures fresh(ten) && fresh(ten.h) && ten.h.Length == 2
    ensures ten.Invariant() && ten.Value() == 10 && ten.d == 1 && !ten.neg
  {
    ten := new Int(2);
    ten.h[0] := 10;
    NormBounds(ten);
  }

  /** One character: multiply by ten into the accumulator, add the digit. */
  method ReadDigit(i: Int, ten: Int, digit: Int, acc: Int, c: char, ghost r: Reader, ghost v: nat)
    requires IsDigit(c) && ReadSoFar(i, r, v)
    requires ten.Invariant() && ten.Value() == 10 && ten.d == 1 && !ten.neg
    requires digit.Valid() && digit.h.Length == 2 && acc.Valid() && acc.h.Length == 254
    requires Distinct(i, ten, digit) && Distinct(acc, i, ten) && Separate(acc, digit)
    modifies i, i.h, digit, digit.h, acc, acc.h
    ensures ReadSoFar(i, ReadStep(r, c as int - '0' as int, i.h.Length), 10 * v + (c as int - '0' as int))
    ensures digit.Valid() && acc.Valid()
  {
    hide Val, Pow, MulOverflows, Leftover, LostTen;
    var x := c as int - '0' as int;
    NormBounds(i);
    NormBounds(ten);
    PowMonotonic(i.d, i.h.Length);
    PowMonotonic(i.h.Length, 254);
    TenTimes(i.Abs(), i.d, i.h.Length);
    Mul(ten, i, acc);
    if acc.overflow {
      LeftoverIsLost(i.h[..i.d]);
      LostTenBound(i.Abs());
    }
    DigitSquare(0, 0);
    SetI(x, digit);
    NormBounds(digit);
    Add(acc, digit, i);
  }

  /** Ten times a number of at most 252 digits fits the accumulator. */
  lemma TenTimes(v: nat, d: nat, m: nat)
    requires d <= m <= 254 && v < Pow(m)
    ensures MulOverflows(10, v, 1, d, 254) <==> Pow(254) <= 10 * v
    ensures m < ACC_DIGITS ==> 10 * v < Pow(254)
  {
    hide Pow;
    TenTimesFits(v, m);
  }

  /** `int_set_s(int_to_s(i))` compares equal to `i`, for every target that holds the value. */
  method DecimalRoundTrip(i: Int, s: array<char>, t: Int) returns (r: IntComp)
    requires i.Invariant() && t.Valid() && Separate(i, t)
    requires |Canonical(i.Value())| + 1 <= s.Length && i.Abs() < Pow(t.h.Length)
    modifies s, t, t.h
    ensures r == EQ && t.Invariant() && t.Value() == i.Value()
  {
    hide Val, Pow, Reading, Canonical;
    CanonicalRoundTrip(i.Value());
    CanonicalMagnitude(i.Value());
    var out := ToS(i, s);
    SetS(s[out..s.Length - 1], t);
    r := Is(t, i);
  }

  lemma CanonicalMagnitude(v: int)
    ensures IsDecimal(Canonical(v)) && Reading(Unsigned(Canonical(v))) == Magnitude(v)
  {
    CanonicalRoundTrip(v);
    if v != 0 {
      CanonicalShape(Magnitude(v));
      NumeralReads(Magnitude(v));
    }
  }
}
