/** Long division of big integers (`int_div`): an under-estimated quotient digit, subtracted
    until the shifted denominator no longer fits, then the next digit position. */
module BigIntDiv {
  import opened Digits
  import opened BigInt

  function Magnitude(x: int): nat {
    if x < 0 then -x else x
  }

  /** The quotient rounded towards zero. */
  function TruncDiv(n: int, d: int): int
    requires d != 0
  {
    var q := Magnitude(n) / Magnitude(d);
    if (n < 0) != (d < 0) then -q else q
  }

  /** Yarg's remainder: what truncated division leaves, plus the denominator whenever the signs
      differ and the numerator is not zero. */
  function YargRem(n: int, d: int): int
    requires d != 0
  {
    n - d * TruncDiv(n, d) + if n != 0 && (n < 0) != (d < 0) then d else 0
  }

  /** The working numbers of the division: `numer` is what is left of the numerator, `denom` the
      denominator `D` shifted left by `shift` digits, `top` its leading digit. */
  ghost predicate Working(numer: Int, denom: Int, D: nat, shift: nat, nDigit: nat, len: nat, top: nat)
    reads numer, numer.h, denom, denom.h
  {
    && numer.Invariant() && !numer.neg && numer.h.Length == 254
    && denom.Invariant() && !denom.neg && denom.h.Length == 254
    && 1 <= D && denom.Abs() == Scale(D, shift) && denom.d == nDigit
    && nDigit <= len <= 254 && numer.d <= len
    && numer.Abs() < Pow(nDigit + 1)
    && (forall i :: numer.d <= i < len ==> numer.h[i] == 0)
    && 1 <= top < 65536
    && denom.Abs() < Scale(top + 1, nDigit - 1)
  }

  /** The quotient so far; an overflow is raised only for a quotient that does not fit. */
  ghost predicate Quotient(q: Int, Q: nat, N: nat, D: nat)
    reads q, q.h
  {
    && q.Valid() && !q.neg
    && (q.overflow ==> Times(Pow(q.h.Length), D) <= N && q.d == q.h.Length)
    && (!q.overflow ==> q.Norm() && q.Abs() == Q)
  }

  ghost predicate Separate(a: Int, b: Int) {
    a != b && a.h != b.h
  }

  ghost predicate Distinct(a: Int, b: Int, c: Int) {
    Separate(a, b) && Separate(a, c) && Separate(b, c)
  }

  ghost predicate Distinct5(a: Int, b: Int, c: Int, d: Int, e: Int) {
    && Distinct(a, b, c) && Separate(d, e)
    && Separate(a, d) && Separate(b, d) && Separate(c, d)
    && Separate(a, e) && Separate(b, e) && Separate(c, e)
  }

  /** Two leading digits of the numerator, as the code reads them: zero beyond its length. */
  method GuessNumerator(numer: Int, nDigit: nat, ghost len: nat) returns (g: nat)
    requires numer.Valid() && numer.Norm() && 1 <= nDigit <= len <= numer.h.Length && numer.d <= len
    requires numer.Abs() < Pow(nDigit + 1)
    requires forall i :: numer.d <= i < len ==> numer.h[i] == 0
    ensures g < TWO32
    ensures Scale(g, nDigit - 1) <= numer.Abs() < Scale(g + 1, nDigit - 1)
  {
    hide Val, Pow, Scale, Low;
    var hi: nat := if nDigit >= numer.d then 0 else numer.h[nDigit];
    var lo: nat := numer.h[nDigit - 1];
    g := lo + 65536 * hi;
    ghost var s := numer.h[..numer.d];
    NormBounds(numer);
    if nDigit + 1 < numer.d {
      PowMonotonic(nDigit + 1, numer.d - 1);
      assert false;
    }
    LeadingDigits(s, nDigit);
    assert hi == At(s, nDigit) && lo == At(s, nDigit - 1);
  }

  lemma LeadingDigits(s: seq<Digit>, n: nat)
    requires 1 <= n && |s| <= n + 1
    ensures var g := At(s, n - 1) as int + 65536 * At(s, n) as int;
            Scale(g, n - 1) <= Val(s) < Scale(g + 1, n - 1)
  {
    hide Val, Low;
    LowAll(s, n + 1);
    LowNext(s, n);
    LowNext(s, n - 1);
    LowAtMost(s, n - 1);
    var x: nat, y: nat, p := At(s, n - 1), At(s, n), Pow(n - 1);
    assert Pow(n) == 65536 * p;
    TwoDigitSum(Low(s, n - 1), x, y, p);
  }

  lemma TwoDigitSum(l: nat, x: nat, y: nat, p: nat)
    requires l < p
    ensures var g := x + 65536 * y;
            var v := l + x * p + y * (65536 * p);
            g * p <= v < (g + 1) * p
  {
    assert (x + 65536 * y) * p == x * p + y * (65536 * p);
  }

  /** The guessed multiplier never exceeds the true one. */
  lemma GuessIsLow(g: nat, top: nat, k: nat, numer: nat, denom: nat)
    requires Scale(g, k) <= numer && denom < Scale(top + 1, k)
    ensures Times(denom, g / (top + 1)) <= numer
  {
    hide Pow;
    var m, p := g / (top + 1), Pow(k);
    MulMonotonic(denom, (top + 1) * p, m);
    assert m * (top + 1) <= g;
    MulMonotonic(m * (top + 1), g, p);
    assert ((top + 1) * p) * m == (m * (top + 1)) * p;
  }

  lemma GuessSize(g: nat, t: nat)
    requires g < TWO32 && 2 <= t
    ensures 0 <= g / t < TWO32
  {
  }

  lemma TimesFacts(x: nat, y: nat)
    ensures Times(x, y) == x * y
    ensures Times(x, 1) == x
    ensures 1 <= x && 1 <= y ==> x <= Times(x, y)
  {
    if 1 <= y {
      MulMonotonic(1, y, x);
      assert y * x == x * y;
    }
  }

  lemma Regroup(q: nat, g: nat, d: nat)
    ensures Times(q + g, d) == Times(q, d) + Times(d, g)
  {
  }

  /** A partial quotient never exceeds the quotient. */
  lemma QuotientBound(Q: nat, S: nat, rest: nat, D: nat, shift: nat, N: nat)
    requires S == Scale(D, shift) && Times(Q, S) + rest == N
    ensures forall m: nat {:trigger Pow(m)} :: Pow(m) <= Q ==> Times(Pow(m), D) <= N
  {
    ScaleFacts(D, shift);
    MulMonotonic(1, Pow(shift), D);
    assert D <= S;
    MulMonotonic(D, S, Q);
    assert D * Q <= S * Q == Times(Q, S) <= N;
    forall m: nat {:trigger Pow(m)} | Pow(m) <= Q
      ensures Times(Pow(m), D) <= N
    {
      MulMonotonic(Pow(m), Q, D);
      assert Q * D == D * Q;
    }
  }

  /** Guess the next multiple of the denominator: `reduceBy == denom * qDigit`, at most the
      numerator unless the multiplier was forced up to 1. */
  method Guess(numer: Int, denom: Int, qDigit: Int, reduceBy: Int, nDigit: nat, testDenominator: nat,
               ghost D: nat, ghost shift: nat, ghost len: nat)
    requires 2 <= testDenominator
    requires Working(numer, denom, D, shift, nDigit, len, testDenominator - 1)
    requires qDigit.Valid() && qDigit.h.Length == 254 && reduceBy.Valid() && reduceBy.h.Length == 254
    requires Distinct(numer, denom, qDigit) && Distinct(reduceBy, numer, denom) && Separate(qDigit, reduceBy)
    modifies qDigit, qDigit.h, reduceBy, reduceBy.h
    ensures qDigit.Invariant() && 1 <= qDigit.Abs() && qDigit.d <= 2
    ensures reduceBy.Invariant() && reduceBy.Abs() == Times(denom.Abs(), qDigit.Abs())
    ensures denom.Abs() <= reduceBy.Abs()
    ensures reduceBy.Abs() <= numer.Abs() || reduceBy.Abs() == denom.Abs()
  {
    hide Val, Pow, MulOverflows, Scale, Times;
    var guessNumerator := GuessNumerator(numer, nDigit, len);
    var guess := guessNumerator / testDenominator;
    GuessIsLow(guessNumerator, testDenominator - 1, nDigit - 1, numer.Abs(), denom.Abs());
    GuessSize(guessNumerator, testDenominator);
    TimesFacts(denom.Abs(), guess);
    if guess == 0 {
      guess := 1;
      TimesFacts(denom.Abs(), guess);
    }
    DigitSquare(0, 0);
    SetI(guess, qDigit);
    NormBounds(qDigit);
    TwoDigits(qDigit.d, guess);
    NormBounds(numer);
    NormBounds(denom);
    PowMonotonic(numer.d, 254);
    PowMonotonic(denom.d, 254);
    ScaleFacts(D, shift);
    PowMonotonic(0, shift);
    MulOverflowTight(denom, qDigit, 254);
    Mul(denom, qDigit, reduceBy);
  }

  /** One round after the comparison: guess, multiply, and subtract if the guess is not too high. */
  method Reduce(numer: Int, denom: Int, qDigit: Int, reduceBy: Int, q: Int, nDigit: nat, testDenominator: nat,
                ghost N: nat, ghost D: nat, ghost shift: nat, ghost len: nat, ghost Q: nat)
    returns (ghost Q': nat)
    requires 2 <= testDenominator
    requires Working(numer, denom, D, shift, nDigit, len, testDenominator - 1)
    requires qDigit.Valid() && qDigit.h.Length == 254 && reduceBy.Valid() && reduceBy.h.Length == 254
    requires Quotient(q, Q, N, D)
    requires Distinct5(numer, denom, qDigit, reduceBy, q)
    requires Times(Q, denom.Abs()) + numer.Abs() == N
    modifies numer, numer.h, qDigit, qDigit.h, reduceBy, reduceBy.h, q, q.h
    ensures Working(numer, denom, D, shift, nDigit, len, testDenominator - 1)
    ensures qDigit.Valid() && reduceBy.Valid() && numer.Valid() && denom.Valid() && q.Valid()
    ensures Times(Q', denom.Abs()) + numer.Abs() == N
    ensures Quotient(q, Q', N, D)
    ensures denom.Abs() <= old(numer.Abs()) ==> numer.Abs() < old(numer.Abs())
  {
    hide Val, Pow, Scale, Times;
    ScaleFacts(D, shift);
    PowMonotonic(0, shift);
    Guess(numer, denom, qDigit, reduceBy, nDigit, testDenominator, D, shift, len);
    Q' := Q;
    var comp := IsAbs(numer, reduceBy);
    if comp != LT {
      Q' := Subtract(numer, denom, qDigit, reduceBy, q, nDigit, testDenominator, N, D, shift, len, Q);
    }
  }

  /** The guess is taken off the numerator and added to the quotient. */
  method Subtract(numer: Int, denom: Int, qDigit: Int, reduceBy: Int, q: Int, ghost nDigit: nat, ghost testDenominator: nat,
                  ghost N: nat, ghost D: nat, ghost shift: nat, ghost len: nat, ghost Q: nat)
    returns (ghost Q': nat)
    requires 2 <= testDenominator && Distinct5(numer, denom, qDigit, reduceBy, q)
    requires Working(numer, denom, D, shift, nDigit, len, testDenominator - 1) && Quotient(q, Q, N, D)
    requires qDigit.Invariant() && 1 <= qDigit.Abs() && qDigit.d <= 2
    requires reduceBy.Invariant() && denom.Abs() <= reduceBy.Abs() == Times(denom.Abs(), qDigit.Abs()) <= numer.Abs()
    requires Times(Q, denom.Abs()) + numer.Abs() == N
    modifies numer, numer.h, q, q.h
    ensures Working(numer, denom, D, shift, nDigit, len, testDenominator - 1) && Quotient(q, Q', N, D)
    ensures Times(Q', denom.Abs()) + numer.Abs() == N && numer.Abs() < old(numer.Abs())
  {
    hide Val, Pow, Scale, Times;
    ScaleFacts(D, shift);
    PowMonotonic(0, shift);
    NormBounds(qDigit);
    NormBounds(numer);
    PowMonotonic(numer.d, 254);
    SubAGtB(numer, reduceBy, numer);
    Q' := Q + qDigit.Abs();
    Regroup(Q, qDigit.Abs(), denom.Abs());
    QuotientBound(Q', denom.Abs(), numer.Abs(), D, shift, N);
    assert q.overflow ==> q.d == q.h.Length;
    AddPos(qDigit, q, q);
  }

  /** Moving on to the next digit position: `denom` one digit right, `q` one digit left. */
  method Narrow(numer: Int, denom: Int, q: Int, nDigit: nat, dd: nat,
                ghost N: nat, ghost D: nat, ghost shift: nat, ghost len: nat, ghost top: nat, ghost Q: nat)
    requires Working(numer, denom, D, shift, nDigit, len, top)
    requires 1 <= shift && 1 <= dd && nDigit == dd + shift
    requires Quotient(q, Q, N, D)
    requires Distinct(numer, denom, q)
    requires Times(Q, denom.Abs()) + numer.Abs() == N
    requires numer.Abs() < denom.Abs()
    modifies denom, denom.h, q, q.h
    ensures Working(numer, denom, D, shift - 1, nDigit - 1, len, top)
    ensures numer.Valid() && denom.Valid() && q.Valid() && numer.Abs() == old(numer.Abs())
    ensures Times(65536 * Q, denom.Abs()) + numer.Abs() == N
    ensures q.overflow ==> !q.neg && Times(Pow(q.h.Length), D) <= N
    ensures !q.overflow ==> Quotient(q, 65536 * Q, N, D)
  {
    hide Val, Pow, Scale, Times;
    NormBounds(denom);
    ScaleFacts(D, shift);
    PowMonotonic(0, shift);
    NarrowDenominator(denom.Abs(), D, shift, nDigit, top);
    Shift(-1, denom);
    NarrowQuotient(Q, D, shift);
    QuotientBound(65536 * Q, denom.Abs(), numer.Abs(), D, shift - 1, N);
    NarrowScale(Q);
    Shift(1, q);
    if !q.overflow {
      NormBounds(q);
    }
  }

  lemma NarrowDenominator(S: nat, D: nat, shift: nat, nDigit: nat, top: nat)
    requires 1 <= shift && 2 <= nDigit
    requires S == Scale(D, shift) && S < Scale(top + 1, nDigit - 1)
    ensures S / Pow(1) == Scale(D, shift - 1) && Pow(1) == 65536
    ensures Scale(D, shift - 1) < Scale(top + 1, nDigit - 2)
  {
    PowTwo();
    var p, p' := Pow(shift - 1), Pow(nDigit - 2);
    assert S == 65536 * (D * p) && Scale(top + 1, nDigit - 1) == 65536 * ((top + 1) * p');
  }

  lemma NarrowQuotient(Q: nat, D: nat, shift: nat)
    requires 1 <= shift
    ensures Times(65536 * Q, Scale(D, shift - 1)) == Times(Q, Scale(D, shift))
  {
    var x := D * Pow(shift - 1);
    assert Scale(D, shift) == 65536 * x;
    assert (65536 * Q) * x == Q * (65536 * x);
  }

  lemma NarrowScale(Q: nat)
    ensures Scale(Q, 1) == 65536 * Q
  {
    PowTwo();
  }

  lemma TopBound(s: seq<Digit>, shift: nat)
    requires |s| > 0
    ensures Scale(Val(s), shift) < Scale(s[|s| - 1] as int + 1, |s| - 1 + shift)
  {
    hide Pow;
    var n := |s| - 1;
    var x: nat := s[n];
    ValBound(s[..n]);
    PowAdd(n, shift);
    NextMultiple(Val(s[..n]), x, Pow(n), Pow(shift));
  }

  lemma NextMultiple(l: nat, x: nat, p: nat, s: nat)
    requires l < p && 1 <= s
    ensures (l + x * p) * s < (x + 1) * (p * s)
  {
    MulMonotonic(l + x * p + 1, (x + 1) * p, s);
    assert (l + x * p + 1) * s == (l + x * p) * s + s;
    assert ((x + 1) * p) * s == (x + 1) * (p * s);
  }

  /** A working copy without the sign, in the largest buffer. */
  method CopyAbs(i: Int) returns (c: Int)
    requires i.Invariant()
    ensures fresh(c) && fresh(c.h) && c.h.Length == 254
    ensures c.Invariant() && !c.neg && c.d == i.d && c.Abs() == i.Abs()
  {
    hide Val;
    c := new Int(254);
    SetT(i, c);
    c.neg := false;
  }

  /** The copies that the division works on, lined up one digit to the right of the numerator. */
  method LineUp(n: Int, d: Int) returns (numer: Int, denom: Int, shift: nat, nDigit: nat)
    requires n.Invariant() && d.Invariant() && d.Abs() != 0 && d.Abs() <= n.Abs()
    ensures fresh(numer) && fresh(denom) && fresh(numer.h) && fresh(denom.h) && Separate(numer, denom)
    ensures Working(numer, denom, d.Abs(), shift, nDigit, n.d, d.h[d.d - 1])
    ensures nDigit == d.d + shift && numer.Abs() == n.Abs()
  {
    hide Val, Pow, Scale, Working;
    LineUpBounds(n, d);
    ghost var N, D := n.Abs(), d.Abs();
    numer := CopyAbs(n);
    nDigit := numer.d - 1;
    denom := CopyAbs(d);
    ScaleFacts(D, 0);
    var offset: int := numer.d - denom.d - 1;
    if offset == -1 {
      offset := 0;
      nDigit := nDigit + 1;
    } else if offset >= 1 {
      ShiftBounds(denom.Abs(), denom.d, offset, 254);
      Shift(offset, denom);
    }
    shift := offset;
    assert numer.Abs() == N && n.Abs() == N && d.Abs() == D;
    LinedUp(n, d, numer, denom, shift, nDigit);
  }

  lemma LineUpBounds(n: Int, d: Int)
    requires n.Valid() && n.Norm() && d.Valid() && d.Norm() && d.Abs() != 0 && d.Abs() <= n.Abs()
    ensures d.d <= n.d
    ensures d.Abs() < Pow(d.d) && (1 < d.d ==> Pow(d.d - 1) <= d.Abs())
  {
    hide Val, Pow;
    NormBounds(n);
    NormBounds(d);
    if n.d < d.d {
      PowMonotonic(n.d, d.d - 1);
    }
  }

  lemma LinedUp(n: Int, d: Int, numer: Int, denom: Int, shift: nat, nDigit: nat)
    requires n.Invariant() && d.Invariant() && d.Abs() != 0
    requires numer.Invariant() && !numer.neg && numer.h.Length == 254
    requires denom.Invariant() && !denom.neg && denom.h.Length == 254
    requires numer.Abs() == n.Abs() && numer.d == n.d
    requires denom.Abs() == Scale(d.Abs(), shift) && denom.d == nDigit == d.d + shift
    requires n.d - 1 <= nDigit <= n.d
    ensures Working(numer, denom, d.Abs(), shift, nDigit, n.d, d.h[d.d - 1])
  {
    hide Val, Pow, Scale;
    NormBounds(n);
    NormBounds(d);
    TopBound(d.h[..d.d], shift);
    PowMonotonic(n.d, nDigit + 1);
  }

  /** The division of magnitudes; `gaveUp` is the early return on an overflowing quotient.
      The quotient may overwrite the numerator. */
  method Divide(n: Int, d: Int, q: Int) returns (numer: Int, gaveUp: bool)
    requires n.Invariant() && d.Invariant() && d.Abs() != 0 && d.Abs() <= n.Abs()
    requires q.Valid() && q != d && Apart(q, d) && Apart(q, n)
    modifies q, q.h
    ensures q.Valid() && !q.neg && fresh(numer) && fresh(numer.h)
    ensures q.overflow <==> Times(Pow(q.h.Length), d.Abs()) <= old(n.Abs())
    ensures !q.overflow ==> q.Norm() && q.Abs() == old(n.Abs()) / d.Abs()
    ensures gaveUp <==> q.overflow
    ensures !gaveUp ==> numer.Invariant() && !numer.neg && numer.Abs() == old(n.Abs()) % d.Abs()
  {
    hide Val, Pow, Scale, Times, Working, Quotient, Int.Abs, Int.Norm;
    ghost var N, D, len := n.Abs(), d.Abs(), n.d;
    var testDenominator: nat := d.h[d.d - 1] as int + 1;
    var dd := d.d;
    var denom: Int, shift: nat, nDigit: nat;
    numer, denom, shift, nDigit := LineUp(n, d);
    WorkingParts(numer, denom, D, shift, nDigit, len, testDenominator - 1);
    Init(q);
    QuotientStart(q, N, D, denom.Abs());
    RoomAtStart(numer, denom, D, shift, nDigit, len, testDenominator - 1, q.h.Length);
    gaveUp := DivideLoop(numer, denom, q, shift, nDigit, dd, testDenominator, N, D, len);
  }

  /** At the first digit position, one digit of the quotient always has room. */
  lemma RoomAtStart(numer: Int, denom: Int, D: nat, shift: nat, nDigit: nat, len: nat, top: nat, m: nat)
    requires Working(numer, denom, D, shift, nDigit, len, top) && 2 <= m
    ensures numer.Abs() < Times(Pow(m), denom.Abs())
  {
    hide Val, Pow, Scale, Times;
    NormBounds(denom);
    PowAdd(2, nDigit - 1);
    PowMonotonic(2, m);
    ScaleFacts(D, shift);
    PowMonotonic(0, shift);
    PowMonotonic(0, 0);
    TopDigitRoom(Pow(2), Pow(nDigit - 1), denom.Abs(), Pow(m), nDigit);
  }

  lemma TopDigitRoom(p: nat, t: nat, s: nat, m: nat, nDigit: nat)
    requires p <= m && 1 <= s && 1 <= nDigit && t == Pow(nDigit - 1) && (1 < nDigit ==> t <= s)
    ensures p * t <= Times(m, s)
  {
    MulMonotonic(t, s, p);
    MulMonotonic(p, m, s);
  }

  /** At the next position there is room too, unless moving the quotient there loses a digit. */
  lemma RoomAtNext(Q: nat, D: nat, shift: nat, rest: nat, N: nat, m: nat)
    requires 1 <= shift && 1 <= m && 65536 * Q < Pow(m)
    requires Times(65536 * Q, Scale(D, shift - 1)) + rest == N && rest < Scale(D, shift)
    ensures N < Times(Pow(m), Scale(D, shift - 1))
  {
    hide Pow, Scale, Times;
    var s := Scale(D, shift - 1);
    NarrowQuotient(1, D, shift);
    PowNext(m - 1);
    TimesParts(1, Scale(D, shift));
    TimesParts(65536, s);
    assert 65536 * Q + 65536 <= Pow(m);
    RoomForRest(65536 * Q, s, rest, Pow(m));
  }

  lemma TimesParts(x: nat, s: nat)
    ensures Times(x, s) == x * s
  {
  }

  lemma RoomForRest(x: nat, s: nat, rest: nat, p: nat)
    requires x + 65536 <= p && rest < 65536 * s
    ensures Times(x, s) + rest < Times(p, s)
  {
    MulMonotonic(x + 65536, p, s);
  }

  /** The division loop: in each position, guesses are subtracted until the denominator no longer fits. */
  method DivideLoop(numer: Int, denom: Int, q: Int, shift0: nat, nDigit0: nat, dd: nat, testDenominator: nat,
                    ghost N: nat, ghost D: nat, ghost len: nat)
    returns (gaveUp: bool)
    requires 2 <= testDenominator && 1 <= dd && 1 <= D && nDigit0 == dd + shift0 && Distinct(numer, denom, q)
    requires Working(numer, denom, D, shift0, nDigit0, len, testDenominator - 1)
    requires numer.Valid() && denom.Valid() && q.Valid() && Quotient(q, 0, N, D)
    requires numer.Abs() == N < Times(Pow(q.h.Length), denom.Abs())
    modifies numer, numer.h, denom, denom.h, q, q.h
    ensures q.Valid() && !q.neg
    ensures q.overflow <==> Times(Pow(q.h.Length), D) <= N
    ensures !q.overflow ==> q.Norm() && q.Abs() == N / D
    ensures gaveUp <==> q.overflow
    ensures !gaveUp ==> numer.Invariant() && !numer.neg && numer.Abs() == N % D
  {
    hide Val, Pow, Scale, Times, Working, Quotient, Int.Abs, Int.Norm;
    gaveUp := false;
    var qDigit := new Int(254);
    var reduceBy := new Int(254);
    var shift, nDigit := shift0, nDigit0;
    ghost var top := testDenominator - 1;
    WorkingParts(numer, denom, D, shift, nDigit, len, top);
    TimesZero(denom.Abs());
    ghost var Q: nat := 0;
    while true
      invariant Working(numer, denom, D, shift, nDigit, len, top) && nDigit == dd + shift
      invariant numer.Valid() && denom.Valid() && q.Valid()
      invariant Quotient(q, Q, N, D)
      invariant Times(Q, denom.Abs()) + numer.Abs() == N < Times(Pow(q.h.Length), denom.Abs())
      invariant qDigit.Valid() && reduceBy.Valid()
      decreases shift, numer.Abs()
    {
      var done: bool;
      shift, nDigit, Q, done, gaveUp := Align(numer, denom, q, shift, nDigit, dd, N, D, len, top, Q);
      if done || gaveUp {
        return;
      }
      Q := Reduce(numer, denom, qDigit, reduceBy, q, nDigit, testDenominator, N, D, shift, len, Q);
    }
  }

  lemma TimesZero(s: nat)
    ensures Times(0, s) == 0
  {
  }

  /** The head of the division loop: when the shifted denominator no longer fits, either the
      division is done or the next digit position starts. */
  method Align(numer: Int, denom: Int, q: Int, shift: nat, nDigit: nat, dd: nat,
               ghost N: nat, ghost D: nat, ghost len: nat, ghost top: nat, ghost Q: nat)
    returns (shift': nat, nDigit': nat, ghost Q': nat, done: bool, gaveUp: bool)
    requires Working(numer, denom, D, shift, nDigit, len, top) && 1 <= dd && nDigit == dd + shift
    requires Quotient(q, Q, N, D)
    requires Distinct(numer, denom, q)
    requires Times(Q, denom.Abs()) + numer.Abs() == N < Times(Pow(q.h.Length), denom.Abs())
    modifies denom, denom.h, q, q.h
    ensures q.Valid() && !q.neg
    ensures done ==>
              && !q.overflow && N < Times(Pow(q.h.Length), D)
              && q.Norm() && q.Abs() == N / D
              && numer.Invariant() && !numer.neg && numer.Abs() == N % D
    ensures gaveUp ==> q.overflow && Times(Pow(q.h.Length), D) <= N
    ensures !done && !gaveUp ==>
              && Working(numer, denom, D, shift', nDigit', len, top) && nDigit' == dd + shift'
              && Quotient(q, Q', N, D)
              && Times(Q', denom.Abs()) + numer.Abs() == N < Times(Pow(q.h.Length), denom.Abs())
              && (shift' < shift || (shift' == shift && denom.Abs() <= numer.Abs()))
    ensures numer.Valid() && denom.Valid() && numer.Abs() == old(numer.Abs())
  {
    hide Val, Pow, Scale, Times, Working, Quotient, Int.Abs, Int.Norm;
    shift', nDigit', Q', done, gaveUp := shift, nDigit, Q, false, false;
    WorkingParts(numer, denom, D, shift, nDigit, len, top);
    QuotientValid(q, Q, N, D);
    var comp := IsAbs(numer, denom);
    if comp == LT {
      if shift == 0 {
        ScaleFacts(D, 0);
        QuotientDone(q, Q, D, numer.Abs(), N);
        done := true;
      } else {
        Narrow(numer, denom, q, nDigit, dd, N, D, shift, len, top, Q);
        shift', nDigit', Q' := shift - 1, nDigit - 1, 65536 * Q;
        gaveUp := q.overflow;
        if !gaveUp {
          QuotientValid(q, Q', N, D);
          QuotientBelow(q, Q', N, D);
          WorkingParts(numer, denom, D, shift', nDigit', len, top);
          RoomAtNext(Q, D, shift, numer.Abs(), N, q.h.Length);
        }
      }
    }
  }

  lemma QuotientBelow(q: Int, Q: nat, N: nat, D: nat)
    requires Quotient(q, Q, N, D) && !q.overflow
    ensures Q < Pow(q.h.Length)
  {
    hide Val, Pow;
    NormBounds(q);
    PowMonotonic(q.d, q.h.Length);
  }

  lemma QuotientValid(q: Int, Q: nat, N: nat, D: nat)
    requires Quotient(q, Q, N, D)
    ensures q.Valid() && !q.neg
  {
  }

  lemma WorkingParts(numer: Int, denom: Int, D: nat, shift: nat, nDigit: nat, len: nat, top: nat)
    requires Working(numer, denom, D, shift, nDigit, len, top)
    ensures numer.Invariant() && denom.Invariant() && !numer.neg && 1 <= top
    ensures denom.Abs() == Scale(D, shift)
  {
  }

  lemma QuotientStart(q: Int, N: nat, D: nat, S: nat)
    requires q.Invariant() && !q.neg && q.Value() == 0
    ensures Quotient(q, 0, N, D) && Times(0, S) == 0
  {
  }

  /** When the remainder is below the denominator the partial quotient is the quotient. */
  lemma QuotientDone(q: Int, Q: nat, D: nat, rest: nat, N: nat)
    requires Quotient(q, Q, N, D) && Times(Q, D) + rest == N && rest < D
    ensures q.Valid() && !q.neg && (!q.overflow ==> q.Norm())
    ensures q.overflow <==> Times(Pow(q.h.Length), D) <= N
    ensures !q.overflow ==> q.Abs() == N / D
    ensures rest == N % D
  {
    hide Val, Pow, Times;
    QuotientReached(Q, D, rest, N);
    if !q.overflow {
      NormBounds(q);
      PowMonotonic(q.d, q.h.Length);
      QuotientFits(Q, D, rest, N, q.h.Length);
    }
  }

  lemma QuotientReached(Q: nat, D: nat, rest: nat, N: nat)
    requires Times(Q, D) + rest == N && rest < D
    ensures Q == N / D && rest == N % D
  {
    QuotientUnique(N, D, Q, rest);
  }

  lemma QuotientFits(Q: nat, D: nat, rest: nat, N: nat, m: nat)
    requires Times(Q, D) + rest == N && rest < D && Q < Pow(m)
    ensures N < Times(Pow(m), D)
  {
    MulMonotonic(Q + 1, Pow(m), D);
  }

  // ---- signs ----

  /** The branch in which yarg's remainder gets the denominator added. */
  ghost predicate SignsDiffer(n: int, d: int) {
    n != 0 && (n < 0) != (d < 0)
  }

  /** What signed division means in terms of the magnitudes. */
  lemma SignedDivision(n: int, d: int)
    requires d != 0
    ensures var q, r := Magnitude(n) / Magnitude(d), Magnitude(n) % Magnitude(d);
            && TruncDiv(n, d) == (if (n < 0) != (d < 0) then -(q as int) else q)
            && YargRem(n, d) == (if n < 0 then -(r as int) else r) + (if SignsDiffer(n, d) then d else 0)
  {
    var N: int, D: int := Magnitude(n), Magnitude(d);
    var q: int, r: int := N / D, N % D;
    assert N == D * q + r;
    SignedProduct(D, q);
    assert d * TruncDiv(n, d) == if n < 0 then -(D * q) else D * q;
  }

  /** The remainder is smaller than the denominator unless the signs differ and the denominator divides
      the numerator. */
  lemma RemainderIsSmallIff(n: int, d: int)
    requires d != 0
    ensures Magnitude(YargRem(n, d)) < Magnitude(d) <==> !SignsDiffer(n, d) || Magnitude(n) % Magnitude(d) != 0
  {
    hide YargRem, TruncDiv;
    SignedDivision(n, d);
  }

  lemma MinusSixModuloThree()
    ensures YargRem(-6, 3) == 3
  {
    SignedDivision(-6, 3);
  }

  lemma SmallNumerator(n: int, d: int)
    requires d != 0 && Magnitude(n) < Magnitude(d)
    ensures TruncDiv(n, d) == 0
    ensures YargRem(n, d) == n + if SignsDiffer(n, d) then d else 0
  {
    QuotientUnique(Magnitude(n), Magnitude(d), 0, Magnitude(n));
  }

  /** `int_div`: quotient towards zero, with yarg's remainder when `r` is given.  `q` may be `n`. */
  method Div(n: Int, d: Int, q: Int, r: Int?)
    requires n.Invariant() && d.Invariant() && q.Valid() && d.Value() != 0
    requires q != d && Apart(q, d) && Apart(q, n)
    requires r != null ==> r.Valid() && Separate(r, n) && Separate(r, d) && Separate(r, q)
    requires r != null && n.Abs() < d.Abs() && !SignsDiffer(n.Value(), d.Value()) ==> n.d <= r.h.Length
    modifies q, q.h, r, if r == null then {} else {r.h}
    ensures NoRoom(r, old(n.Abs()), d) ==> r.overflow && unchanged(q) && unchanged(q.h)
    ensures !NoRoom(r, old(n.Abs()), d) ==>
              && q.Valid()
              && (q.overflow <==> Times(Pow(q.h.Length), d.Abs()) <= old(n.Abs()))
              && (!q.overflow ==>
                    && q.Norm() && q.Value() == TruncDiv(old(n.Value()), d.Value())
                    && (q.neg <==> q.Value() < 0))
    ensures r != null && !NoRoom(r, old(n.Abs()), d) && !q.overflow ==>
              && r.Valid()
              && (r.overflow <==> old(n.Abs()) < d.Abs() && SignsDiffer(old(n.Value()), d.Value())
                                  && (old(r.overflow) || !Fits(old(n.Value()) + d.Value(), r.h.Length)))
              && (!r.overflow ==> r.Norm() && r.Value() == YargRem(old(n.Value()), d.Value()))
    ensures r != null && !NoRoom(r, old(n.Abs()), d) && q.overflow ==> unchanged(r) && unchanged(r.h)
  {
    hide Val, Pow, Times, TruncDiv, YargRem, Int.Abs, Int.Norm;
    ghost var nv, dv, nAbs := n.Value(), d.Value(), n.Abs();
    SignedDivision(nv, dv);
    var comp := IsAbs(n, d);
    if comp == LT {
      SmallNumerator(nv, dv);
      TimesAtLeast(q.h.Length, d.Abs());
      if r != null {
        SmallRemainder(n, d, r);
      }
      Init(q);
      return;
    }
    DivLarge(n, d, q, r);
  }

  /** `int_div` for a numerator at least as large as the denominator. */
  method DivLarge(n: Int, d: Int, q: Int, r: Int?)
    requires n.Invariant() && d.Invariant() && q.Valid() && d.Abs() != 0 && d.Abs() <= n.Abs()
    requires q != d && Apart(q, d) && Apart(q, n)
    requires r != null ==> r.Valid() && Separate(r, n) && Separate(r, d) && Separate(r, q)
    modifies q, q.h, r, if r == null then {} else {r.h}
    ensures NoRoom(r, old(n.Abs()), d) ==> r.overflow && unchanged(q) && unchanged(q.h)
    ensures !NoRoom(r, old(n.Abs()), d) ==>
              && q.Valid()
              && (q.overflow <==> Times(Pow(q.h.Length), d.Abs()) <= old(n.Abs()))
              && (!q.overflow ==>
                    && q.Norm() && q.Abs() == old(n.Abs()) / d.Abs()
                    && (q.neg <==> old(n.neg) != d.neg) && q.Abs() != 0)
    ensures r != null && !NoRoom(r, old(n.Abs()), d) && !q.overflow ==>
              && r.Invariant()
              && r.Value() == LargeRemainder(old(n.Abs()), old(n.neg), d)
    ensures r != null && !NoRoom(r, old(n.Abs()), d) && q.overflow ==> unchanged(r) && unchanged(r.h)
  {
    hide Val, Pow, Times, Int.Abs, Int.Norm;
    ghost var nAbs := n.Abs();
    NormBounds(n);
    var nSign, dSign := n.neg, d.neg;
    if r != null && r.h.Length < d.d {
      r.overflow := true;
      return;
    }
    var numer, gaveUp := Divide(n, d, q);
    if gaveUp {
      return;
    }
    q.neg := nSign != dSign;
    NonZeroQuotient(q, nAbs, d.Abs());
    if r != null {
      FinalRemainder(n, numer, d, r, nSign, dSign);
    }
  }

  ghost function LargeRemainder(nAbs: nat, nNeg: bool, d: Int): int
    requires d.Valid() && d.Abs() != 0
    reads d, d.h
  {
    (if nNeg then -(nAbs % d.Abs() as int) else nAbs % d.Abs()) + (if nNeg != d.neg then d.Value() else 0)
  }

  /** The remainder of a numerator smaller than the denominator. */
  method SmallRemainder(n: Int, d: Int, r: Int)
    requires n.Invariant() && d.Invariant() && d.Value() != 0
    requires r.Valid() && Separate(r, n) && Separate(r, d)
    requires !SignsDiffer(n.Value(), d.Value()) ==> n.d <= r.h.Length
    modifies r, r.h
    ensures var x := n.Value() + if SignsDiffer(n.Value(), d.Value()) then d.Value() else 0;
            && r.Valid()
            && (r.overflow <==> SignsDiffer(n.Value(), d.Value()) && (old(r.overflow) || !Fits(x, r.h.Length)))
            && (!r.overflow ==> r.Norm() && r.Value() == x)
  {
    hide Val, Pow;
    var nSign, dSign := n.neg, d.neg;
    var zero := IsZero(n);
    if !zero && ((nSign && !dSign) || (!nSign && dSign)) {
      Add(n, d, r);                       // adjust for yarg's weird %
    } else {
      SetT(n, r);
    }
  }

  /** The remainder after the division loop.  `n` may have been overwritten by the quotient, which
      is not zero either. */
  method FinalRemainder(n: Int, numer: Int, d: Int, r: Int, nSign: bool, dSign: bool)
    requires n.Valid() && numer.Invariant() && !numer.neg && d.Invariant() && numer.Abs() < d.Abs()
    requires dSign == d.neg && d.d <= r.h.Length
    requires r.Valid() && Separate(r, n) && Separate(r, d) && Separate(r, numer)
    modifies r, r.h
    ensures n.Norm() && n.Value() != 0 ==>
              && r.Invariant()
              && r.Value() == (if nSign then -(numer.Abs() as int) else numer.Abs())
                              + (if nSign != dSign then d.Value() else 0)
    ensures r.Valid()
  {
    hide Val, Pow;
    RemainderFits(numer, d, r.h.Length);
    SetT(numer, r);
    r.neg := nSign;
    var zero := IsZero(n);
    if !zero && ((nSign && !dSign) || (!nSign && dSign)) {
      Add(r, d, r);                       // adjust for yarg's weird %
    }
  }

  lemma NonZeroQuotient(q: Int, nAbs: nat, dAbs: nat)
    requires q.Valid() && 1 <= dAbs <= nAbs && q.Abs() == nAbs / dAbs
    ensures q.Value() != 0
  {
    hide Val;
    DivAtLeast(nAbs, dAbs);
  }

  lemma DivAtLeast(n: nat, d: nat)
    requires 1 <= d <= n
    ensures 1 <= n / d
  {
    assert n == (n / d) * d + n % d;
  }

  /** The early return of `int_div` for a remainder buffer shorter than the denominator. */
  ghost predicate NoRoom(r: Int?, nAbs: nat, d: Int)
    requires d.Valid()
    reads r, d, d.h
  {
    r != null && d.Abs() <= nAbs && r.h.Length < d.d
  }

  lemma TimesAtLeast(m: nat, d: nat)
    ensures d <= Times(Pow(m), d)
  {
    MulMonotonic(1, Pow(m), d);
  }

  lemma RemainderFits(rest: Int, d: Int, m: nat)
    requires rest.Invariant() && d.Invariant() && rest.Abs() < d.Abs() && d.d <= m
    ensures rest.d <= d.d && d.Abs() < Pow(m)
  {
    hide Val, Pow;
    NormBounds(rest);
    NormBounds(d);
    PowMonotonic(d.d, m);
    if d.d < rest.d {
      PowMonotonic(d.d, rest.d - 1);
    }
  }
}
