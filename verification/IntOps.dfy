/** The interpreter's integer operators (cyarg/vm.c): the result buffer chosen from the lengths
    of the operands is always large enough, up to the largest buffer of 254 digits. */
module IntOps {
  import opened Digits
  import opened BigInt
  import opened BigIntDiv
  import Language

  datatype IntOp = Plus | Minus | Star | Slash | Percent

  const MAX_DIGITS := 254

  function OpResult(op: IntOp, a: int, b: int): int
    requires op.Slash? || op.Percent? ==> b != 0
  {
    match op
    case Plus => a + b
    case Minus => a - b
    case Star => a * b
    case Slash => TruncDiv(a, b)
    case Percent => YargRem(a, b)
  }

  function LanguageOp(op: IntOp): Language.BinaryOp {
    match op
    case Plus => Language.Add
    case Minus => Language.Subtract
    case Star => Language.Multiply
    case Slash => Language.Divide
    case Percent => Language.Modulo
  }

  /** The language gives this value to the operator between two integers. */
  predicate LanguageSays(op: Language.BinaryOp, a: int, b: int, v: Language.Value) {
    Language.Apply(op, Language.Int(a), Language.Int(b)) == Language.Some(v)
  }

  /** What the language says of integers, except that a zero divisor is an error there. */
  lemma ResultIsApplied(op: IntOp, a: int, b: int)
    ensures Language.Apply(LanguageOp(op), Language.Int(a), Language.Int(b))
            == if (op.Slash? || op.Percent?) && b == 0 then Language.None else Language.Some(Language.Int(OpResult(op, a, b)))
  {
  }

  function Max(x: nat, y: nat): nat {
    if x > y then x else y
  }

  /** `allocateIntValue`: two digits in place, otherwise an object with an even number. */
  method AllocateIntValue(numDigits: nat) returns (i: Int)
    requires numDigits <= MAX_DIGITS
    ensures fresh(i) && fresh(i.h) && i.Invariant() && i.Value() == 0
    ensures numDigits <= i.h.Length && (numDigits == MAX_DIGITS ==> i.h.Length == MAX_DIGITS)
  {
    if numDigits > 2 {
      i := new Int(numDigits + numDigits % 2);
    } else {
      i := new Int(2);
    }
  }

  /** The number of digits `binaryIntOp` asks for. */
  method ResultDigits(op: IntOp, a: Int, b: Int) returns (s: nat)
    requires a.Invariant() && b.Invariant()
    requires op.Percent? ==> b.Value() != 0
    ensures op.Plus? || op.Minus? ==> s == 1 + Max(a.d, b.d)
    ensures op.Star? ==> s == a.d + b.d
    ensures op.Slash? ==> s == a.d
    ensures op.Percent? ==>
              s == if SignsDiffer(a.Value(), b.Value()) then 1 + b.d else if a.d > b.d then b.d else a.d
  {
    hide Val, Pow;
    match op {
      case Plus => s := 1 + (if a.d > b.d then a.d else b.d);
      case Minus => s := 1 + (if a.d > b.d then a.d else b.d);
      case Star => s := a.d + b.d;
      case Slash => s := a.d;
      case Percent =>
        s := if a.d > b.d then b.d else a.d;
        var zero := IsZero(a);
        if !zero && ((a.neg && !b.neg) || (!a.neg && b.neg)) {
          s := 1 + (if s > b.d then s else b.d);
        }
    }
  }

  /** What `binaryIntOp` owes: the result, flagged exactly when 254 digits do not hold it. */
  ghost predicate Delivers(r: Int, v: int)
    reads r, r.h
  {
    r.Valid() && (r.overflow <==> !Fits(v, MAX_DIGITS)) && (!r.overflow ==> r.Invariant() && r.Value() == v)
  }

  /** `binaryIntOp`: exact whenever the true result fits in 254 digits, and flagged otherwise.
      Quotients and remainders always fit. */
  method BinaryIntOp(op: IntOp, a: Int, b: Int) returns (r: Int)
    requires a.Invariant() && b.Invariant()
    requires op.Slash? || op.Percent? ==> b.Value() != 0
    ensures fresh(r) && fresh(r.h) && Delivers(r, OpResult(op, a.Value(), b.Value()))
    ensures op.Slash? || op.Percent? ==> !r.overflow
    ensures !r.overflow ==> LanguageSays(LanguageOp(op), a.Value(), b.Value(), Language.Int(r.Value()))
  {
    hide Val, Pow, Fits, TruncDiv, YargRem, Int.Abs, Int.Norm, Delivers, LanguageOp, Language.Apply;
    ResultIsApplied(op, a.Value(), b.Value());
    var s := ResultDigits(op, a, b);
    if s > MAX_DIGITS {
      s := MAX_DIGITS;
    }
    r := AllocateIntValue(s);
    match op {
      case Plus => AddInto(a, b, r);
      case Minus => SubtractInto(a, b, r);
      case Star => MultiplyInto(a, b, r);
      case Slash => DivideInto(a, b, r);
      case Percent => RemainderInto(a, b, r);
    }
    DeliveredValue(r, OpResult(op, a.Value(), b.Value()));
  }

  lemma DeliveredValue(r: Int, v: int)
    requires Delivers(r, v)
    ensures r.Valid() && (!r.overflow ==> r.Value() == v)
  {
  }

  /** `binaryIntBoolOp`: the comparisons that the interpreter makes of two integers. */
  method BinaryIntBoolOp(op: Language.BinaryOp, a: Int, b: Int) returns (r: bool)
    requires a.Invariant() && b.Invariant() && (op.Less? || op.Greater? || op.Equal?)
    ensures LanguageSays(op, a.Value(), b.Value(), Language.Bool(r))
  {
    hide Val, Pow, Int.Abs, Int.Norm;
    var ic := Is(a, b);
    match op {
      case Less => r := ic == LT;
      case Greater => r := ic == GT;
      case Equal => r := ic == EQ;
    }
  }

  /** `unaryIntOp`: a new integer, the negation of the operand. */
  method UnaryIntOp(a: Int) returns (r: Int)
    requires a.Invariant() && a.d <= MAX_DIGITS
    ensures fresh(r) && fresh(r.h) && r.Invariant() && !r.overflow
    ensures Language.ApplyUnary(Language.Negate, Language.Int(a.Value())) == Language.Some(Language.Int(r.Value()))
  {
    hide Val, Pow;
    r := AllocateIntValue(a.d);
    SetT(a, r);
    Neg(r);
  }

  method AddInto(a: Int, b: Int, r: Int)
    requires a.Invariant() && b.Invariant() && r.Invariant() && Separate(a, r) && Separate(b, r)
    requires 1 + Max(a.d, b.d) <= r.h.Length || r.h.Length == MAX_DIGITS
    modifies r, r.h
    ensures Delivers(r, old(a.Value() + b.Value()))
  {
    hide Val, Pow, Fits;
    SumFits(a, b, r.h.Length);
    Add(a, b, r);
  }

  method SubtractInto(a: Int, b: Int, r: Int)
    requires a.Invariant() && b.Invariant() && r.Invariant() && Separate(a, r) && Separate(b, r)
    requires 1 + Max(a.d, b.d) <= r.h.Length || r.h.Length == MAX_DIGITS
    modifies r, r.h
    ensures Delivers(r, old(a.Value() - b.Value()))
  {
    hide Val, Pow, Fits;
    SumFits(a, b, r.h.Length);
    Sub(a, b, r);
  }

  method MultiplyInto(a: Int, b: Int, r: Int)
    requires a.Invariant() && b.Invariant() && r.Invariant() && Separate(a, r) && Separate(b, r)
    requires a.d + b.d <= r.h.Length || r.h.Length == MAX_DIGITS
    modifies r, r.h
    ensures Delivers(r, old(a.Value() * b.Value()))
  {
    hide Val, Pow, Fits, MulOverflows, Leftover;
    ProductFits(a, b, r.h.Length);
    Mul(a, b, r);
  }

  method DivideInto(a: Int, b: Int, r: Int)
    requires a.Invariant() && b.Invariant() && r.Invariant() && Separate(a, r) && Separate(b, r)
    requires b.Value() != 0 && a.d <= r.h.Length
    modifies r, r.h
    ensures Delivers(r, old(TruncDiv(a.Value(), b.Value()))) && !r.overflow
  {
    hide Val, Pow, Fits, TruncDiv, YargRem;
    QuotientRoom(a, b, r.h.Length);
    Div(a, b, r, null);
  }

  method RemainderInto(a: Int, b: Int, r: Int)
    requires a.Invariant() && b.Invariant() && r.Invariant() && Separate(a, r) && Separate(b, r)
    requires b.Value() != 0 && (SignsDiffer(a.Value(), b.Value()) ==> b.d <= r.h.Length)
    requires a.d <= r.h.Length || b.d <= r.h.Length
    modifies r, r.h
    ensures Delivers(r, old(YargRem(a.Value(), b.Value()))) && !r.overflow
  {
    hide Val, Pow, Fits, TruncDiv, YargRem;
    var q := new Int(254);
    RemainderRoom(a, b, r.h.Length);
    Div(a, b, q, r);
  }

  lemma AbsBound(i: Int, m: nat)
    requires i.Valid() && i.d <= m
    ensures i.Abs() < Pow(m)
  {
    hide Val, Pow;
    NormBounds(i);
    PowMonotonic(i.d, m);
  }

  /** A sum or difference that does not fit the chosen buffer does not fit the largest. */
  lemma SumFits(a: Int, b: Int, m: nat)
    requires a.Valid() && b.Valid()
    requires 1 + Max(a.d, b.d) <= m || m == MAX_DIGITS
    requires m <= MAX_DIGITS
    ensures Fits(a.Value() + b.Value(), m) <==> Fits(a.Value() + b.Value(), MAX_DIGITS)
    ensures Fits(a.Value() - b.Value(), m) <==> Fits(a.Value() - b.Value(), MAX_DIGITS)
  {
    hide Val, Pow;
    if m != MAX_DIGITS {
      var k := Max(a.d, b.d);
      AbsBound(a, k);
      AbsBound(b, k);
      PowNext(k);
      PowMonotonic(k + 1, m);
      PowMonotonic(m, MAX_DIGITS);
    }
  }

  lemma ProductFits(a: Int, b: Int, m: nat)
    requires a.Invariant() && b.Invariant()
    requires a.d + b.d <= m || m == MAX_DIGITS
    requires m <= MAX_DIGITS
    ensures MulOverflows(a.Abs(), b.Abs(), a.d, b.d, m) <==> !Fits(a.Value() * b.Value(), MAX_DIGITS)
  {
    hide Val, Pow, Int.Abs, Int.Norm;
    AbsBound(a, a.d);
    AbsBound(b, b.d);
    SignedProduct(a.Abs(), b.Abs());
    PowMonotonic(m, MAX_DIGITS);
    FitsProduct(a.Value(), b.Value(), a.Abs(), b.Abs());
    if a.d + b.d <= m {
      PowAdd(a.d, b.d);
      ProductBound(a.Abs(), b.Abs(), Pow(a.d), Pow(b.d));
      PowMonotonic(a.d + b.d, m);
    } else if a.Value() == 0 || b.Value() == 0 {
      NormBounds(a);
      NormBounds(b);
      assert 0 * b.Abs() == 0 && a.Abs() * 0 == 0;
    } else {
      MulOverflowTight(a, b, m);
    }
  }

  lemma FitsProduct(a: int, b: int, x: nat, y: nat)
    requires (a == x || a == -(x as int)) && (b == y || b == -(y as int))
    ensures forall m: nat {:trigger Pow(m)} :: Fits(a * b, m) <==> x * y < Pow(m)
  {
    SignedProduct(x, y);
    assert a * b == x * y || a * b == -(x * y);
    MulMonotonic(0, x, y);
  }

  lemma ProductBound(x: nat, y: nat, p: nat, q: nat)
    requires x < p && y < q
    ensures x * y < p * q
  {
    MulMonotonic(x, p, y);
    MulMonotonic(y + 1, q, p);
    assert p * y == y * p && p * q == q * p;
  }

  /** A quotient fits the buffer of its numerator. */
  lemma QuotientRoom(a: Int, b: Int, m: nat)
    requires a.Invariant() && b.Invariant() && b.Value() != 0 && a.d <= m <= MAX_DIGITS
    ensures a.Abs() < Times(Pow(m), b.Abs())
    ensures Fits(TruncDiv(a.Value(), b.Value()), MAX_DIGITS)
  {
    hide Val, Pow, Times, Int.Abs, Int.Norm, TruncDiv, YargRem;
    AbsBound(a, m);
    PowMonotonic(m, MAX_DIGITS);
    TimesFacts(Pow(m), b.Abs());
    TruncDivAtMost(a.Value(), b.Value());
    assert a.Abs() == Magnitude(a.Value());
  }

  lemma TruncDivAtMost(n: int, d: int)
    requires d != 0
    ensures Magnitude(TruncDiv(n, d)) <= Magnitude(n)
  {
    var N, D := Magnitude(n), Magnitude(d);
    var q := N / D;
    assert N == q * D + N % D;
    MulMonotonic(1, D, q);
  }

  /** A remainder fits the buffer chosen for it, denominator added or not. */
  lemma RemainderRoom(a: Int, b: Int, m: nat)
    requires a.Invariant() && b.Invariant() && b.Value() != 0 && m <= MAX_DIGITS
    requires SignsDiffer(a.Value(), b.Value()) ==> b.d <= m
    requires a.d <= m || b.d <= m
    ensures a.Abs() < Times(Pow(MAX_DIGITS), b.Abs())
    ensures b.Abs() <= a.Abs() ==> b.d <= m
    ensures a.Abs() < b.Abs() ==> a.d <= m
    ensures a.Abs() < b.Abs() && SignsDiffer(a.Value(), b.Value()) ==> Fits(a.Value() + b.Value(), m)
    ensures Fits(YargRem(a.Value(), b.Value()), MAX_DIGITS)
  {
    hide Val, Pow, Times, Int.Abs, Int.Norm, TruncDiv, YargRem;
    QuotientRoom(a, b, MAX_DIGITS);
    if a.Abs() <= b.Abs() {
      ShorterFirst(a, b);
    }
    if b.Abs() <= a.Abs() {
      ShorterFirst(b, a);
    }
    SignedDivision(a.Value(), b.Value());
    AbsBound(b, MAX_DIGITS);
    if b.d <= m {
      AbsBound(b, m);
    }
    assert a.Abs() == Magnitude(a.Value()) && b.Abs() == Magnitude(b.Value());
    assert a.Abs() % b.Abs() < b.Abs();
  }

  lemma ShorterFirst(a: Int, b: Int)
    requires a.Invariant() && b.Invariant() && a.Abs() <= b.Abs()
    ensures a.d <= b.d
  {
    hide Val, Pow;
    NormBounds(a);
    NormBounds(b);
    if b.d < a.d {
      PowMonotonic(b.d, a.d - 1);
    }
  }

  /** `int_is_range`: the number against a 64-bit interval. */
  method IsRange(i: Int, l: int, u: nat) returns (r: IntRange)
    requires i.Invariant() && -TWO63 <= l < TWO63 && u < TWO64
    ensures r == if i.Value() > u then Above else if i.Value() < l then Below else Within
  {
    hide Val, Pow;
    var t := new Int(254);
    PowSixtyFour();
    SetU(u, t);
    var c := Is(i, t);
    if c == GT {
      return Above;
    }
    SetI(l, t);
    c := Is(i, t);
    return if c == LT then Below else Within;
  }

  lemma PowSixtyFour()
    ensures TWO64 <= Pow(254)
  {
    PowTwo();
    PowNext(2);
    PowNext(3);
    PowMonotonic(4, 254);
  }
}
