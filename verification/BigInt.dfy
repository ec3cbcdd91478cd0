/** Sign-magnitude integers in fixed-capacity buffers of 16-bit digits (cyarg/big-int).
    Operands and result may be the same object wherever the C code allows it. */
module BigInt {
  import opened Digits

  datatype IntComp = LT | EQ | GT

  datatype IntRange = Below | Within | Above

  const TWO32: int := 0x1_0000_0000
  const TWO63: int := 0x8000_0000_0000_0000
  const TWO64: int := 0x1_0000_0000_0000_0000

  class Int {
    var neg: bool
    var overflow: bool
    var d: nat                // digits in use
    const h: array<Digit>     // the half-words of `w_`; `h.Length` is `m_`

    /** The part of the representation that holds even after an overflow. */
    ghost predicate Valid()
      reads `d
    {
      && h.Length % 2 == 0 && 2 <= h.Length <= 254
      && 1 <= d <= h.Length
    }

    /** No leading zeros, and the unused half of the top word is clear. */
    ghost predicate Norm()
      requires Valid()
      reads `d, h
    {
      && (d > 1 ==> h[d - 1] != 0)
      && (d % 2 == 1 ==> h[d] == 0)
    }

    /** `int_invariant`. */
    ghost predicate Invariant()
      reads this, h
    {
      Valid() && Norm() && !overflow
    }

    ghost function Abs(): (v: nat)
      requires Valid()
      reads `d, h
    {
      Val(h[..d])
    }

    ghost function Value(): (v: int)
      requires Valid()
      reads this, h
    {
      var v: int := Abs();
      if neg then -v else v
    }

    /** `int_init_concrete2/4/254`: the digits above the first stay uninitialised. */
    constructor (capacity: nat)
      requires capacity % 2 == 0 && 2 <= capacity <= 254
      ensures Invariant() && Value() == 0 && !neg
      ensures fresh(h) && h.Length == capacity
    {
      h := new Digit[capacity];
      neg, overflow, d := false, false, 1;
      new;
      h[0] := 0;
      h[1] := 0;
      ValZeros(h[..1]);
    }
  }

  /** Distinct numbers have distinct digit buffers. */
  ghost predicate Apart(a: Int, b: Int) {
    a != b ==> a.h != b.h
  }

  /** The bounds that normalisation puts on a value, and the value that a length demands. */
  lemma NormBounds(i: Int)
    requires i.Valid()
    ensures i.Abs() < Pow(i.d)
    ensures i.Norm() && 1 < i.d ==> Pow(i.d - 1) <= i.Abs()
    ensures i.d == 1 ==> i.Abs() == i.h[0]
    ensures i.Norm() ==> (i.Abs() == 0 <==> i.d == 1 && i.h[0] == 0)
  {
    ValBound(i.h[..i.d]);
    if i.Norm() && 1 < i.d {
      TopDigit(i.h[..i.d]);
    }
    if i.d == 1 {
      ValTakeNext(i.h[..1], 0);
      assert i.h[..1][..1] == i.h[..1];
    }
  }

  /** `int_init` */
  method Init(i: Int)
    requires i.Valid()
    modifies i, i.h
    ensures i.Invariant() && i.Value() == 0 && !i.neg
  {
    i.neg, i.overflow, i.d := false, false, 1;
    i.h[0] := 0;                    // w_[0] = 0
    i.h[1] := 0;
    ValZeros(i.h[..1]);
  }

  /** `int_set_u` */
  method SetU(value: nat, i: Int)
    requires i.Valid() && value < TWO64
    modifies i, i.h
    ensures i.Valid() && !i.neg
    ensures i.overflow <==> Pow(i.h.Length) <= value
    ensures !i.overflow ==> i.Abs() == value && i.Norm()
  {
    hide Pow, Val, Scale;
    i.overflow, i.neg := false, false;
    var to := value;
    var w := 0;
    ScaleFacts(value, 0);
    ValZeros([]);
    assert i.h[..0] == [];
    while w < i.h.Length / 2 && to > 0
      invariant 0 <= w <= i.h.Length / 2 && 0 <= to
      invariant Val(i.h[..2 * w]) + Scale(to, 2 * w) == value
      invariant 0 < w ==> Pow(2 * w - 2) <= value
      invariant !i.overflow && !i.neg
      decreases i.h.Length / 2 - w
    {
      ghost var before := i.h[..2 * w];
      var word := to % TWO32;
      i.h[2 * w] := word % 65536;
      i.h[2 * w + 1] := word / 65536;
      assert i.h[..2 * w] == before;
      SetWord(i.h[..], w, value, to);
      to := to / TWO32;
      w := w + 1;
    }
    if to > 0 {
      i.overflow := true;
    }
    ScaleFacts(to, 2 * w);
    i.d := 2 * w;
    if i.d == 0 {
      i.h[0] := 0;
      i.h[1] := 0;
      i.d := 1;
      ValZeros(i.h[..1]);
    } else {
      if !i.overflow {
        assert to == 0 && i.h[..][..2 * w] == i.h[..2 * w];
        SetWordsDone(i.h[..], w, value);
      }
      if i.h[i.d - 1] == 0 {
        i.d := i.d - 1;
      }
    }
  }

  /** The loop of `int_set_u` writes the low word and goes on with the rest. */
  lemma SetWord(h: seq<Digit>, w: nat, value: nat, rest: nat)
    requires 2 * w + 2 <= |h|
    requires 0 < rest
    requires Val(h[..2 * w]) + Scale(rest, 2 * w) == value
    requires Word(h, 2 * w) == rest % TWO32
    ensures Val(h[..2 * w + 2]) + Scale(rest / TWO32, 2 * w + 2) == value
    ensures Pow(2 * w) <= value
  {
    WordAt(h, 2 * w);
    var p := Pow(2 * w);
    assert Pow(2 * w + 2) == TWO32 * p by {
      assert Pow(2 * w + 2) == 65536 * Pow(2 * w + 1);
    }
    MulDivMod(rest, TWO32, p);
    MulMonotonic(1, rest, p);
  }

  lemma SetWordsDone(h: seq<Digit>, w: nat, value: nat)
    requires 0 < w && 2 * w <= |h|
    requires Val(h[..2 * w]) == value && Pow(2 * w - 2) <= value
    ensures value < Pow(|h|)
    ensures h[2 * w - 1] == 0 ==> Val(h[..2 * w - 1]) == value && h[2 * w - 2] != 0
  {
    ValBound(h[..2 * w]);
    PowMonotonic(2 * w, |h|);
    ValTakeNext(h, 2 * w - 1);
    if h[2 * w - 1] == 0 {
      TopDigit(h[..2 * w - 1]);
    }
  }

  /** `int_set_i` */
  method SetI(value: int, i: Int)
    requires i.Valid() && -TWO63 <= value < TWO63
    modifies i, i.h
    ensures i.Valid() && (i.neg <==> value < 0)
    ensures i.overflow <==> Pow(i.h.Length) <= (if value < 0 then -value else value)
    ensures !i.overflow ==> i.Value() == value && i.Norm()
  {
    hide Pow, Val;
    var v: nat := if value < 0 then -value else value;
    SetU(v, i);
    i.neg := value < 0;
  }

  /** `int_set_t`: copies sign, overflow flag and whole 32-bit words. */
  method SetT(v: Int, i: Int)
    requires i.Valid() && v.Valid() && Apart(v, i)
    requires v.d <= i.h.Length
    modifies i, i.h
    ensures i.Valid() && i.d == old(v.d)
    ensures i.neg == old(v.neg) && i.overflow == old(v.overflow)
    ensures i.h[..i.d] == old(v.h[..v.d])
    ensures i.Abs() == old(v.Abs()) && (old(v.Norm()) ==> i.Norm())
  {
    hide Val;
    i.neg, i.overflow, i.d := v.neg, v.overflow, v.d;
    forall k | 0 <= k < (v.d + 1) / 2 * 2 {
      i.h[k] := v.h[k];
    }
    assert i.h[..i.d] == old(v.h[..v.d]);
  }

  /** `int_neg` */
  method Neg(i: Int)
    requires i.Valid()
    modifies i`neg
    ensures i.Value() == -old(i.Value())
  {
    i.neg := !i.neg;
  }

  /** `int_is_zero` */
  method IsZero(i: Int) returns (r: bool)
    requires i.Valid()
    ensures i.Norm() ==> (r <==> i.Value() == 0)
    ensures r ==> i.d == 1
  {
    hide Val, Pow;
    NormBounds(i);
    r := i.h[0] == 0 && i.d == 1;
  }

  function Compare(x: int, y: int): IntComp {
    if x < y then LT else if x == y then EQ else GT
  }

  /** The comparing loop of `int_is_abs`: whole words, from the top. */
  method CompareWords(a: Int, b: Int) returns (r: IntComp)
    requires a.Valid() && b.Valid() && a.Norm() && b.Norm() && a.d == b.d
    ensures r == Compare(a.Abs(), b.Abs())
  {
    hide Val, Pow, Word, Int.Abs, Int.Norm;
    var words := (a.d + 1) / 2;
    ghost var ah := PaddedAbs(a);
    ghost var bh := PaddedAbs(b);
    var w := words;
    while w > 0
      invariant 0 <= w <= words
      invariant forall k :: 2 * w <= k < |ah| ==> ah[k] == bh[k]
    {
      w := w - 1;
      var ad := Word([a.h[2 * w], a.h[2 * w + 1]], 0);
      var bd := Word([b.h[2 * w], b.h[2 * w + 1]], 0);
      WordOf(ah, 2 * w);
      WordOf(bh, 2 * w);
      if ad > bd {
        CompareWord(bh, ah, 2 * w);
        return GT;
      } else if ad < bd {
        CompareWord(ah, bh, 2 * w);
        return LT;
      }
      SameWord(ah, bh, 2 * w);
    }
    assert ah == bh;
    return EQ;
  }

  /** `int_is_abs`: the longer number is larger; at the same length the words decide. */
  method IsAbs(a: Int, b: Int) returns (r: IntComp)
    requires a.Valid() && b.Valid() && a.Norm() && b.Norm()
    ensures r == Compare(a.Abs(), b.Abs())
  {
    hide Val, Pow;
    if a.d == b.d {
      r := CompareWords(a, b);
    } else if a.d > b.d {
      CompareLength(a.h[..a.d], b.h[..b.d]);
      return GT;
    } else {
      CompareLength(b.h[..b.d], a.h[..a.d]);
      return LT;
    }
  }

  /** Reading whole words does not change the number: the spare half-word is zero. */
  lemma PaddedAbs(i: Int) returns (words: seq<Digit>)
    requires i.Valid() && i.Norm()
    ensures |words| == 2 * ((i.d + 1) / 2) <= i.h.Length
    ensures words == i.h[..|words|] && Val(words) == i.Abs()
  {
    hide Val;
    var n := 2 * ((i.d + 1) / 2);
    words := i.h[..n];
    ValTrim(i.h[..n], i.d);
    assert i.h[..n][..i.d] == i.h[..i.d];
  }

  /** `int_is`: two zeros are equal whatever their signs. */
  method Is(a: Int, b: Int) returns (r: IntComp)
    requires a.Valid() && b.Valid() && a.Norm() && b.Norm()
    ensures r == Compare(a.Value(), b.Value())
  {
    hide Val, Pow;
    if a == b {
      return EQ;
    }
    NormBounds(a);
    NormBounds(b);
    if a.neg != b.neg {
      if a.d == 1 && b.d == 1 && a.h[0] == 0 && b.h[0] == 0 {
        return EQ;
      }
      return if a.neg then LT else GT;
    }
    r := IsAbs(a, b);
    if a.neg {
      r := match r
        case LT => GT
        case GT => LT
        case EQ => EQ;
    }
  }

  /** The loop of `addPos`: digit by digit while either operand lasts.  `stopped` is its early
      return, on a digit that has no room. */
  method AddDigits(a: Int, b: Int, r: Int) returns (rp: nat, carry: nat, stopped: bool)
    requires a.Valid() && b.Valid() && r.Valid() && Apart(a, r) && Apart(b, r)
    modifies r.h
    ensures stopped ==> Pow(r.h.Length) <= old(a.Abs()) + old(b.Abs())
    ensures stopped ==> r.h.Length < a.d || r.h.Length < b.d
    ensures var k := if a.d < b.d then b.d else a.d;
            !stopped ==>
              && rp == (if k < r.h.Length then k else r.h.Length)
              && carry <= 1 && (r.h.Length < k ==> carry == 0)
              && Val(r.h[..rp]) + Scale(carry, k) == old(a.Abs()) + old(b.Abs())
  {
    hide Val, Pow, Scale, Low;
    ghost var av, bv := a.h[..a.d], b.h[..b.d];
    var ae, be, re := a.d, b.d, r.h.Length;
    carry, stopped := 0, false;
    var k := 0;
    rp := 0;
    LowStart(av);
    LowStart(bv);
    ScaleFacts(0, 0);
    ValZeros(r.h[..0]);
    while k < ae || k < be
      invariant 0 <= k <= (if ae < be then be else ae)
      invariant rp == if k < re then k else re
      invariant carry <= 1 && (re < k ==> carry == 0)
      invariant Val(r.h[..rp]) + Scale(carry, k) == Low(av, k) + Low(bv, k)
      invariant forall i :: k <= i < ae ==> a.h[i] == av[i]
      invariant forall i :: k <= i < be ==> b.h[i] == bv[i]
      decreases (if ae < be then be else ae) - k
    {
      var ps: nat;
      if k >= ae {
        ps := b.h[k] as int + carry;
      } else if k >= be {
        ps := a.h[k] as int + carry;
      } else {
        ps := a.h[k] as int + b.h[k] as int + carry;
      }
      assert ps == At(av, k) as int + At(bv, k) as int + carry;
      ghost var done := Val(r.h[..rp]);
      LowNext(av, k);
      LowNext(bv, k);
      if rp < re {
        ghost var written := r.h[..rp];
        r.h[rp] := ps % 65536;
        ValAppend(written, ps % 65536);
        assert r.h[..rp + 1] == written + [r.h[rp]];
        CarryStep(done, carry, At(av, k), At(bv, k), ps % 65536, ps / 65536, Low(av, k), Low(bv, k), k);
        rp := rp + 1;
        carry := ps / 65536;
      } else {
        CarryStep(done, carry, At(av, k), At(bv, k), ps, 0, Low(av, k), Low(bv, k), k);
        ScaleFacts(ps, k + 1);
        if ps != 0 {
          ScaleTooHigh(ps, k, re);
          LowAtMost(av, k + 1);
          LowAtMost(bv, k + 1);
          stopped := true;
          return;
        }
        ScaleFacts(ps, k);
        carry := 0;
      }
      k := k + 1;
    }
    LowAll(av, k);
    LowAll(bv, k);
  }

  /** `addPos`: adds magnitudes; `r` may be `a`, `b` or both.  The flag is only ever raised,
      exactly when the sum does not fit. */
  method AddPos(a: Int, b: Int, r: Int)
    requires a.Valid() && b.Valid() && r.Valid() && Apart(a, r) && Apart(b, r)
    modifies r, r.h
    ensures r.Valid() && r.neg == old(r.neg)
    ensures r.overflow <==> old(r.overflow) || Pow(r.h.Length) <= old(a.Abs()) + old(b.Abs())
    ensures old(a.Abs()) + old(b.Abs()) < Pow(r.h.Length) ==>
              && r.Abs() == old(a.Abs()) + old(b.Abs())
              && (old(a.Norm()) && old(b.Norm()) ==> r.Norm())
    ensures old(a.d) <= r.h.Length && old(b.d) <= r.h.Length ==>
              && old(a.d) <= r.d && old(b.d) <= r.d
              && (Pow(r.h.Length) <= old(a.Abs()) + old(b.Abs()) ==>
                    r.d == r.h.Length && r.Abs() == old(a.Abs()) + old(b.Abs()) - Pow(r.h.Length))
  {
    hide Val, Pow, Scale, Trimmed;
    ghost var av, bv := a.h[..a.d], b.h[..b.d];
    NormTrimmed(a);
    NormTrimmed(b);
    var re := r.h.Length;
    var rp, carry, stopped := AddDigits(a, b, r);
    if stopped {
      r.overflow := true;
      return;
    }
    ghost var out := SumDone(av, bv, r.h[..rp], carry, re);
    if rp < re {
      r.h[rp] := carry;
      if carry > 0 {
        rp := rp + 1;
        if rp < re {
          r.h[rp] := 0;
        }
      }
    } else {
      if carry > 0 {
        r.overflow := true;
      }
    }
    r.d := rp;
    assert r.h[..r.d] == out;
    NormTrimmed(r);
  }

  lemma NormTrimmed(i: Int)
    requires i.Valid()
    ensures i.Norm() <==> Trimmed(i.h[..i.d]) && (i.d % 2 == 1 ==> i.h[i.d] == 0)
  {
  }

  /** What the final carry of `addPos` means: the digits that are in use afterwards. */
  lemma SumDone(av: seq<Digit>, bv: seq<Digit>, written: seq<Digit>, carry: nat, m: nat)
    returns (out: seq<Digit>)
    requires 1 <= m && 1 <= |av| && 1 <= |bv|
    requires var k := if |av| < |bv| then |bv| else |av|;
             && |written| == (if k < m then k else m)
             && carry <= 1 && (m < k ==> carry == 0)
             && Val(written) + Scale(carry, k) == Val(av) + Val(bv)
    ensures out == if 0 < carry && |written| < m then written + [carry] else written
    ensures 0 < carry && |written| == m <==> Pow(m) <= Val(av) + Val(bv)
    ensures Pow(m) <= Val(av) + Val(bv) && |av| <= m && |bv| <= m ==> Val(out) == Val(av) + Val(bv) - Pow(m)
    ensures !(0 < carry && |written| == m) ==>
              Val(out) == Val(av) + Val(bv) && (Trimmed(av) && Trimmed(bv) ==> Trimmed(out))
  {
    hide Val, Pow, Scale;
    var k := if |av| < |bv| then |bv| else |av|;
    ScaleFacts(carry, k);
    out := if 0 < carry && |written| < m then written + [carry] else written;
    ValBound(out);
    PowMonotonic(|out|, m);
    if 0 < carry {
      ValAppend(written, carry);
    } else if k <= m {
      SumTop(av, bv, written);
    } else {
      SumLength(av, bv, m);
    }
  }

  lemma LowStart(s: seq<Digit>)
    ensures Low(s, 0) == 0
  {
  }

  /** No leading zeros, on sequences. */
  predicate Trimmed(s: seq<Digit>) {
    |s| > 1 ==> s[|s| - 1] != 0
  }

  /** A sum without a final carry is as long as its longer operand and as normalised. */
  lemma SumTop(av: seq<Digit>, bv: seq<Digit>, out: seq<Digit>)
    requires |out| == if |av| < |bv| then |bv| else |av|
    requires Val(out) == Val(av) + Val(bv)
    ensures Trimmed(av) && Trimmed(bv) ==> Trimmed(out)
  {
    if Trimmed(av) && Trimmed(bv) && |out| > 1 {
      TopDigit(out);
      TopDigit(if |av| < |bv| then bv else av);
    }
  }

  /** Normalised operands longer than the result cannot have a sum that fits. */
  lemma SumLength(av: seq<Digit>, bv: seq<Digit>, m: nat)
    requires 1 <= m && (m < |av| || m < |bv|)
    requires Val(av) + Val(bv) < Pow(m)
    ensures !(Trimmed(av) && Trimmed(bv))
  {
    hide Val, Pow;
    var long := if m < |av| then av else bv;
    TopDigit(long);
    PowMonotonic(m, |long| - 1);
  }

  /** The loop of `subAGtB`; `stopped` is its early return, on a digit that has no room. */
  method SubDigits(a: Int, b: Int, r: Int) returns (rp: nat, stopped: bool)
    requires a.Valid() && b.Valid() && r.Valid() && Apart(a, r) && Apart(b, r)
    requires b.Abs() <= a.Abs()
    modifies r.h
    ensures stopped ==> Pow(r.h.Length) <= old(a.Abs()) - old(b.Abs())
    ensures !stopped ==>
              && rp == (if a.d < r.h.Length then a.d else r.h.Length)
              && Val(r.h[..rp]) == old(a.Abs()) - old(b.Abs())
    ensures forall i :: a.d <= i < r.h.Length ==> r.h[i] == old(r.h[i])
  {
    hide Val, Pow, Scale, Low;
    ghost var av, bv := a.h[..a.d], b.h[..b.d];
    var ae, be, re := a.d, b.d, r.h.Length;
    var borrow: nat := 0;
    var k := 0;
    rp, stopped := 0, false;
    LowStart(av);
    LowStart(bv);
    ScaleFacts(0, 0);
    ValZeros(r.h[..0]);
    PowMonotonic(0, 0);
    while k < ae
      invariant 0 <= k <= ae
      invariant rp == if k < re then k else re
      invariant borrow <= 1
      invariant Val(r.h[..rp]) + Low(bv, k) == Low(av, k) + Scale(borrow, k)
      invariant forall i :: k <= i < ae ==> a.h[i] == av[i]
      invariant forall i :: k <= i < be ==> b.h[i] == bv[i]
      invariant forall i :: a.d <= i < re ==> r.h[i] == old(r.h[i])
    {
      var ad: nat := a.h[k];
      var bd: nat := if k < be then b.h[k] else 0;
      var pd := bd + borrow;
      ghost var lent := borrow;
      if pd > ad {
        borrow := 1;
        pd := 0x10000 + ad - pd;
      } else {
        borrow := 0;
        pd := ad - pd;
      }
      assert pd < 0x10000;        // the assert on h16_
      assert ad == At(av, k) && bd == At(bv, k);
      LowNext(av, k);
      LowNext(bv, k);
      BorrowStep(Val(r.h[..rp]), lent, ad, bd, pd, borrow, Low(av, k), Low(bv, k), k);
      if rp < re {
        ghost var written := r.h[..rp];
        r.h[rp] := pd;
        ValAppend(written, pd);
        assert r.h[..rp + 1] == written + [r.h[rp]];
        rp := rp + 1;
      } else {
        ScaleFacts(pd, k);
        if pd != 0 {
          ValBound(r.h[..rp]);
          SubTooLong(av, bv, k, Val(r.h[..rp]), pd, borrow, re);
          stopped := true;
          return;
        }
      }
      k := k + 1;
    }
    ValBound(r.h[..rp]);
    PowMonotonic(rp, k);
    LowDifference(av, bv, k, Val(r.h[..rp]), borrow);
  }

  lemma SubTooLong(av: seq<Digit>, bv: seq<Digit>, k: nat, done: nat, pd: nat, borrow: nat, m: nat)
    requires Val(bv) <= Val(av) && borrow <= 1
    requires done < Pow(m) && m <= k && 0 < pd < 65536
    requires done + Scale(pd, k) + Low(bv, k + 1) == Low(av, k + 1) + Scale(borrow, k + 1)
    ensures Pow(m) <= Val(av) - Val(bv)
  {
    hide Val, Low;
    ScaleTooHigh(pd, k, m);
    PowMonotonic(m, k);
    WordGap(done, pd, 65536, Pow(k));
    LowDifference(av, bv, k + 1, done + Scale(pd, k), borrow);
  }

  /** `subAGtB`: the difference of magnitudes of `a >= b`, normalised; `r` may be `a` or `b`.
      Digits between the new length and the length of `a` are left clear. */
  method SubAGtB(a: Int, b: Int, r: Int)
    requires a.Valid() && b.Valid() && r.Valid() && Apart(a, r) && Apart(b, r)
    requires b.Abs() <= a.Abs()
    modifies r, r.h
    ensures r.Valid() && r.neg == old(r.neg)
    ensures r.overflow <==> old(r.overflow) || Pow(r.h.Length) <= old(a.Abs()) - old(b.Abs())
    ensures old(a.Abs()) - old(b.Abs()) < Pow(r.h.Length) ==>
              && r.Abs() == old(a.Abs()) - old(b.Abs()) && r.Norm() && r.d <= old(a.d)
              && (forall i :: r.d <= i < old(a.d) && i < r.h.Length ==> r.h[i] == 0)
              && (forall i :: old(a.d) <= i < r.h.Length ==> r.h[i] == old(r.h[i]) || r.h[i] == 0)
  {
    hide Val, Pow;
    ghost var top := a.d;
    var rp, stopped := SubDigits(a, b, r);
    if stopped {
      r.overflow := true;
      return;
    }
    ValBound(r.h[..rp]);
    PowMonotonic(rp, r.h.Length);
    r.d := rp;
    ghost var out := r.h[..rp];
    if r.d % 2 == 1 {
      r.h[r.d] := 0;
    }
    assert r.h[..rp] == out;
    while r.d > 1 && r.h[r.d - 1] == 0
      invariant 1 <= r.d <= rp
      invariant Val(r.h[..r.d]) == Val(out)
      invariant forall i :: r.d <= i < rp ==> r.h[i] == 0
      invariant forall i :: rp <= i < r.h.Length ==> r.h[i] == old(r.h[i]) || r.h[i] == 0
      invariant r.d % 2 == 1 ==> r.h[r.d] == 0
      invariant r.neg == old(r.neg) && r.overflow == old(r.overflow)
      decreases r.d
    {
      ValTrim(r.h[..r.d], r.d - 1);
      assert r.h[..r.d][..r.d - 1] == r.h[..r.d - 1];
      r.d := r.d - 1;
    }
  }

  /** `int_sub_abs` */
  method SubAbs(a: Int, b: Int, r: Int)
    requires a.Valid() && b.Valid() && r.Valid() && Apart(a, r) && Apart(b, r)
    requires a.Norm() && b.Norm()
    modifies r, r.h
    ensures r.Valid()
    ensures var x := old(a.Abs()) - old(b.Abs());
            && (r.overflow <==> old(r.overflow) || !Fits(x, r.h.Length))
            && (Fits(x, r.h.Length) ==> r.Value() == x && r.Norm())
  {
    hide Val, Pow;
    var comp := IsAbs(a, b);
    if comp == LT {
      SubAGtB(b, a, r);
      r.neg := true;
    } else {
      SubAGtB(a, b, r);
      r.neg := false;
    }
  }

  /** The numbers that `m` digits can hold. */
  ghost predicate Fits(x: int, m: nat) {
    var bound: int := Pow(m);
    -bound < x < bound
  }

  /** `int_add`: exact, with the overflow flag raised exactly when the sum does not fit.
      Normalised operands are needed only where magnitudes are subtracted. */
  method Add(a: Int, b: Int, r: Int)
    requires a.Valid() && b.Valid() && r.Valid() && Apart(a, r) && Apart(b, r)
    requires a.neg == b.neg || (a.Norm() && b.Norm())
    modifies r, r.h
    ensures r.Valid()
    ensures var x := old(a.Value()) + old(b.Value());
            && (r.overflow <==> old(r.overflow) || !Fits(x, r.h.Length))
            && (Fits(x, r.h.Length) ==>
                  r.Value() == x && (old(a.Norm()) && old(b.Norm()) ==> r.Norm()))
    ensures old(a.neg) == old(b.neg) ==> r.neg == old(a.neg)
    ensures old(!a.neg && !b.neg && a.d <= r.h.Length && b.d <= r.h.Length && Pow(r.h.Length) <= a.Abs() + b.Abs()) ==>
              r.Abs() == old(a.Abs()) + old(b.Abs()) - Pow(r.h.Length)
  {
    hide Val, Pow;
    if a.neg {
      if b.neg {
        AddPos(a, b, r);
        r.neg := true;
      } else {
        SubAbs(b, a, r);
      }
    } else {
      if b.neg {
        SubAbs(a, b, r);
      } else {
        AddPos(a, b, r);
        r.neg := false;
      }
    }
  }

  /** `int_sub` */
  method Sub(a: Int, b: Int, r: Int)
    requires a.Valid() && b.Valid() && r.Valid() && Apart(a, r) && Apart(b, r)
    requires a.Norm() && b.Norm()
    modifies r, r.h
    ensures r.Valid()
    ensures var x := old(a.Value()) - old(b.Value());
            && (r.overflow <==> old(r.overflow) || !Fits(x, r.h.Length))
            && (Fits(x, r.h.Length) ==> r.Value() == x && r.Norm())
  {
    hide Val, Pow;
    if a.neg {
      if b.neg {
        SubAbs(b, a, r);
      } else {
        AddPos(a, b, r);
        r.neg := true;
      }
    } else {
      if b.neg {
        AddPos(a, b, r);
        r.neg := false;
      } else {
        SubAbs(a, b, r);
      }
    }
  }

  /** `int_shift` by `shift` digits to the left. */
  method ShiftLeft(shift: nat, i: Int)
    requires i.Valid() && (i.Norm() || (1 < i.d && i.h.Length < i.d + shift))
    modifies i, i.h
    ensures i.Valid() && i.neg == old(i.neg)
    ensures old(i.Norm()) ==>
              && (i.overflow <==> old(i.overflow) || Pow(i.h.Length) <= Scale(old(i.Abs()), shift))
              && (Scale(old(i.Abs()), shift) < Pow(i.h.Length) ==>
                    && i.Norm() && i.Abs() == Scale(old(i.Abs()), shift)
                    && (old(i.Abs()) != 0 ==> i.d == old(i.d) + shift))
    ensures 1 < old(i.d) && i.h.Length < old(i.d) + shift ==> i.overflow
  {
    hide Val, Pow, Scale;
    NormBounds(i);
    ScaleFacts(0, shift);
    if i.d != 1 || i.h[0] != 0 {
      if i.Norm() {
        ShiftBounds(i.Abs(), i.d, shift, i.h.Length);
      }
      if i.d + shift > i.h.Length {
        i.overflow := true;
        return;
      }
      ghost var digits := i.h[..i.d];
      forall k | 0 <= k < i.d {               // memmove
        i.h[shift + k] := i.h[k];
      }
      forall k | 0 <= k < shift {             // memset
        i.h[k] := 0;
      }
      ghost var zeros := i.h[..shift];
      assert i.h[..shift + i.d] == zeros + digits;
      ValShift(zeros, digits);
      i.d := i.d + shift;
      if i.d < i.h.Length {
        i.h[i.d] := 0;
      }
      assert i.h[..i.d] == zeros + digits;
    }
  }

  /** A shifted number fits exactly when its digits do. */
  lemma ShiftBounds(v: nat, d: nat, shift: nat, m: nat)
    requires 1 <= d && 1 <= m && v < Pow(d) && 0 < v
    requires 1 < d ==> Pow(d - 1) <= v
    ensures d + shift <= m <==> Scale(v, shift) < Pow(m)
  {
    if d + shift <= m {
      PowAdd(d, shift);
      MulMonotonic(v + 1, Pow(d), Pow(shift));
      PowMonotonic(d + shift, m);
    } else {
      PowAdd(d - 1, shift);
      MulMonotonic(Pow(d - 1), v, Pow(shift));
      PowMonotonic(m, d - 1 + shift);
    }
  }

  /** `int_shift` by `n` digits to the right: drops the lowest digits. */
  method ShiftRight(n: nat, i: Int)
    requires i.Valid() && i.Norm() && 1 <= n
    requires i.Abs() == 0 || n <= i.d
    modifies i, i.h
    ensures i.Valid() && i.Norm() && i.neg == old(i.neg) && i.overflow == old(i.overflow)
    ensures i.Abs() == old(i.Abs()) / Pow(n)
    ensures old(i.Abs()) != 0 && n < old(i.d) ==> i.d == old(i.d) - n
  {
    hide Val, Pow;
    NormBounds(i);
    if i.d != 1 || i.h[0] != 0 {
      ghost var digits := i.h[..i.d];
      ShiftedRight(digits, n);
      forall k | 0 <= k < i.d - n {           // memmove
        i.h[k] := i.h[n + k];
      }
      forall k | i.d - n <= k < i.d {         // memset
        i.h[k] := 0;
      }
      i.d := i.d - n;
      assert i.h[..i.d] == digits[n..];
      if i.d == 0 {
        i.d := 1;
        assert i.h[0] == 0;
        ValTrim(i.h[..1], 0);
        assert i.h[..1][..0] == digits[n..];
      }
    } else {
      assert 0 / Pow(n) == 0;
    }
  }

  lemma ShiftedRight(s: seq<Digit>, n: nat)
    requires n <= |s|
    ensures Val(s[n..]) == Val(s) / Pow(n)
  {
    ValSplit(s, n);
    ValBound(s[..n]);
    QuotientUnique(Val(s), Pow(n), Val(s[n..]), Val(s[..n]));
  }

  /** `int_shift`.  A number that is not normalised (after an overflow) can only be shifted
      further out of range. */
  method Shift(shift: int, i: Int)
    requires i.Valid() && (i.Norm() || (1 < i.d && i.h.Length < i.d + shift))
    requires shift < 0 ==> i.Abs() == 0 || 0 <= i.d + shift
    modifies i, i.h
    ensures i.Valid() && i.neg == old(i.neg)
    ensures 0 <= shift && old(i.Norm()) ==>
              && (i.overflow <==> old(i.overflow) || Pow(i.h.Length) <= Scale(old(i.Abs()), shift))
              && (Scale(old(i.Abs()), shift) < Pow(i.h.Length) ==>
                    i.Norm() && i.Abs() == Scale(old(i.Abs()), shift))
    ensures 1 < old(i.d) && i.h.Length < old(i.d) + shift ==> i.overflow
    ensures shift < 0 ==>
              i.Norm() && i.overflow == old(i.overflow) && i.Abs() == old(i.Abs()) / Pow(-shift)
    ensures old(i.Norm()) && old(i.Abs()) != 0 && 1 <= old(i.d) + shift <= i.h.Length ==>
              i.d == old(i.d) + shift
  {
    hide Val, Pow, Scale;
    if shift >= 0 {
      NormBounds(i);
      if i.Norm() && i.Abs() != 0 {
        ShiftBounds(i.Abs(), i.d, shift, i.h.Length);
      }
      ShiftLeft(shift, i);
    } else {
      ShiftRight(-shift, i);
    }
  }

  // ---- multiplication ----

  /** When `int_mul` raises the overflow flag: the product does not fit, or the operands are so
      long that a product of two digits would already start beyond the buffer.  The second
      alternative adds something only when the product is zero. */
  ghost predicate MulOverflows(a: nat, b: nat, ad: nat, bd: nat, m: nat) {
    Pow(m) <= a * b || m < ad + bd - 1
  }

  /** The part of the product accumulated before digit `i` of `a` meets digit `j` of `b`. */
  ghost function Partial(av: seq<Digit>, bv: seq<Digit>, i: nat, j: nat): nat {
    Low(av, i) * Val(bv) + Scale(At(av, i) * Low(bv, j), i)
  }

  lemma PartialStart(av: seq<Digit>, bv: seq<Digit>, i: nat)
    ensures Partial(av, bv, 0, 0) == 0
    ensures |bv| > 0 ==> Partial(av, bv, i, |bv|) == Partial(av, bv, i + 1, 0)
    ensures Partial(av, bv, |av|, 0) == Val(av) * Val(bv)
  {
    hide Val, Pow, Low;
    LowNext(av, i);
    LowAll(av, |av|);
    LowAll(bv, |bv|);
    LowStart(bv);
    LowStart(av);
    var x: nat := At(av, i);
    RowSum(Low(av, i), x, Val(bv), Pow(i));
    assert At(av, 0) * 0 == 0 && At(av, i + 1) * 0 == 0;
    assert At(av, |av|) * 0 == 0;
  }

  lemma RowSum(l: nat, x: nat, v: nat, p: nat)
    ensures (l + x * p) * v == l * v + (x * v) * p
  {
    assert (x * p) * v == (x * v) * p;
  }

  /** One digit product more, and no more than the whole product. */
  lemma PartialStep(av: seq<Digit>, bv: seq<Digit>, i: nat, j: nat)
    ensures Partial(av, bv, i, j + 1)
            == Partial(av, bv, i, j) + Scale(At(av, i) as int * At(bv, j) as int, i + j)
    ensures Partial(av, bv, i, j + 1) <= Val(av) * Val(bv)
  {
    hide Val, Pow, Low;
    var x: nat, y: nat, p, q := At(av, i), At(bv, j), Pow(i), Pow(j);
    var l, l' := Low(bv, j), Low(bv, j + 1);
    LowNext(bv, j);
    PowAdd(i, j);
    DigitProduct(x, y, l, p, q);
    LowNext(av, i);
    LowAtMost(bv, j + 1);
    LowAtMost(av, i + 1);
    MulMonotonic(l', Val(bv), x);
    MulMonotonic(x * l', x * Val(bv), p);
    RowSum(Low(av, i), x, Val(bv), p);
    MulMonotonic(Low(av, i + 1), Val(av), Val(bv));
  }

  lemma DigitProduct(x: nat, y: nat, l: nat, p: nat, q: nat)
    ensures (x * (l + y * q)) * p == (x * l) * p + (x * y) * (p * q)
  {
    assert x * (l + y * q) == x * l + x * (y * q);
    assert (x * (y * q)) * p == (x * y) * (p * q);
  }

  /** A digit product that would reach beyond the buffer shows that the result does not fit. */
  lemma MulNoRoom(av: seq<Digit>, bv: seq<Digit>, i: nat, j: nat, ppd: nat, m: nat)
    requires i < |av| && j < |bv|
    requires ppd <= 2 && (ppd == 2 ==> 65536 <= At(av, i) as int * At(bv, j) as int)
    requires m < i + j + ppd
    ensures MulOverflows(Val(av), Val(bv), |av|, |bv|, m)
  {
    hide Val, Low;
    if ppd == 2 {
      PartialStep(av, bv, i, j);
      var xy := At(av, i) * At(bv, j);
      MulMonotonic(65536, xy, Pow(i + j));
      PowMonotonic(m, i + j + 1);
    }
  }

  /** The state of the accumulator of `int_mul`. */
  ghost predicate Accumulated(r: Int, product: nat, tooBig: bool)
    reads r, r.h
  {
    && r.Valid() && !r.neg
    && (r.overflow ==> tooBig)
    && (!r.overflow ==> r.Norm() && r.Abs() == product)
  }

  /** A digit product that is to be added `k` digits up does not find room for its own digits. */
  ghost predicate NoRoomFor(x: Digit, y: Digit, k: nat, m: nat) {
    m < k + if x as int * y as int < 65536 then 1 else 2
  }

  /** One digit product: set, shift and add it, or find that it has no room. */
  method MulDigit(a: Int, b: Int, i: nat, j: nat, pp: Int, r: Int)
    requires a.Valid() && b.Valid() && i < a.d && j < b.d
    requires pp.Valid() && pp.h.Length == 254
    requires r != a && r != b && pp != a && pp != b && pp != r
    requires Apart(a, r) && Apart(b, r) && Apart(a, pp) && Apart(b, pp) && Apart(pp, r)
    requires var av, bv := a.h[..a.d], b.h[..b.d];
             Accumulated(r, Partial(av, bv, i, j), MulOverflows(Val(av), Val(bv), a.d, b.d, r.h.Length))
    modifies r, r.h, pp, pp.h
    ensures var av, bv := a.h[..a.d], b.h[..b.d];
            Accumulated(r, Partial(av, bv, i, j + 1), MulOverflows(Val(av), Val(bv), a.d, b.d, r.h.Length))
    ensures !r.overflow ==> i + j < r.h.Length
    ensures old(r.overflow) ==> r.overflow
    ensures !old(r.overflow) && r.overflow ==>
              var av, bv, m := a.h[..a.d], b.h[..b.d], r.h.Length;
              if NoRoomFor(a.h[i], b.h[j], i + j, m) then r.Abs() == Partial(av, bv, i, j)
              else r.Abs() + Pow(m) == Partial(av, bv, i, j + 1)
    ensures pp.Valid()
  {
    hide Val, Pow, Partial, Low, Scale, MulOverflows;
    ghost var av, bv := a.h[..a.d], b.h[..b.d];
    var xy: nat := a.h[i] as int * b.h[j] as int;
    DigitSquare(a.h[i], b.h[j]);
    SetI(xy, pp);
    NormBounds(pp);
    TwoDigits(pp.d, xy);
    ProductLength(pp, xy);
    PartialStep(av, bv, i, j);
    if i + j + pp.d > r.h.Length {
      r.overflow := true;
      MulNoRoom(av, bv, i, j, pp.d, r.h.Length);
      return;
    }
    ScaleFacts(xy, i + j);
    if xy > 0 {
      ShiftBounds(xy, pp.d, i + j, 254);
    }
    Shift(i + j, pp);
    assert pp.Abs() == Scale(xy, i + j);
    NormBounds(r);
    PowMonotonic(r.d, r.h.Length);
    Add(r, pp, r);
    if r.overflow && !old(r.overflow) {
      FitsMeans(Partial(av, bv, i, j + 1), r.h.Length);
      TooBigProduct(av, bv, Partial(av, bv, i, j + 1), r.h.Length);
    }
  }

  lemma ProductLength(pp: Int, xy: nat)
    requires pp.Valid() && pp.Abs() == xy && pp.d <= 2 && (pp.d == 2 ==> 65536 <= xy)
    ensures pp.d == if xy < 65536 then 1 else 2
  {
    NormBounds(pp);
    PowTwo();
  }

  lemma FitsMeans(x: nat, m: nat)
    ensures Fits(x, m) <==> x < Pow(m)
  {
  }

  lemma TooBigProduct(av: seq<Digit>, bv: seq<Digit>, part: nat, m: nat)
    requires part <= Val(av) * Val(bv) && Pow(m) <= part
    ensures MulOverflows(Val(av), Val(bv), |av|, |bv|, m)
  {
  }

  lemma DigitSquare(x: Digit, y: Digit)
    ensures 0 <= x as int * y as int < TWO32
    ensures TWO32 == Pow(2) <= Pow(254)
  {
    hide Pow;
    SquareBound(x, y);
    PowMonotonic(2, 254);
    PowTwo();
  }

  lemma SquareBound(u: nat, v: nat)
    requires u <= 65535 && v <= 65535
    ensures 0 <= u * v <= 65535 * 65535
  {
    MulMonotonic(0, u, v);
    MulMonotonic(u, 65535, v);
  }

  lemma PowTwo()
    ensures Pow(1) == 65536 && Pow(2) == TWO32
  {
    assert Pow(1) == 65536 * Pow(0);
    assert Pow(2) == 65536 * Pow(1);
  }

  lemma TwoDigits(d: nat, v: nat)
    requires v < TWO32 && (1 < d ==> Pow(d - 1) <= v)
    ensures d <= 2 && (d == 2 ==> 65536 <= v)
  {
    PowTwo();
    if 2 < d {
      PowMonotonic(2, d - 1);
    }
  }

  /** What is left in the result when a number of exactly `m` digits times a single digit does not
      fit: either its top digit was not multiplied, or the last carry was lost. */
  ghost function Leftover(x: Digit, bv: seq<Digit>, m: nat): int
    requires 0 < m == |bv|
  {
    if 65536 <= x as int * bv[m - 1] as int then x as int * Low(bv, m - 1) else x as int * Val(bv) - Pow(m)
  }

  /** The inner loop of `int_mul`. */
  method MulRow(a: Int, b: Int, i: nat, pp: Int, r: Int)
    requires a.Valid() && b.Valid() && i < a.d && pp.Valid() && pp.h.Length == 254
    requires r != a && r != b && pp != a && pp != b && pp != r
    requires Apart(a, r) && Apart(b, r) && Apart(a, pp) && Apart(b, pp) && Apart(pp, r)
    requires var av, bv := a.h[..a.d], b.h[..b.d];
             Accumulated(r, Partial(av, bv, i, 0), MulOverflows(Val(av), Val(bv), a.d, b.d, r.h.Length))
    modifies r, r.h, pp, pp.h
    ensures var av, bv := a.h[..a.d], b.h[..b.d];
            Accumulated(r, Partial(av, bv, i, b.d), MulOverflows(Val(av), Val(bv), a.d, b.d, r.h.Length))
    ensures !r.overflow ==> i + b.d <= r.h.Length
    ensures old(r.overflow) ==> r.overflow
    ensures i == 0 && a.d == 1 && b.d <= r.h.Length && !old(r.overflow) && r.overflow ==>
              b.d == r.h.Length && r.Abs() == Leftover(a.h[0], b.h[..b.d], b.d)
    ensures pp.Valid()
  {
    hide Val, Pow, Partial, Low, Scale, MulOverflows, NoRoomFor, Leftover;
    ghost var av, bv := a.h[..a.d], b.h[..b.d];
    ghost var tooBig := MulOverflows(Val(av), Val(bv), a.d, b.d, r.h.Length);
    ghost var was := r.overflow;
    var j := 0;
    while j < b.d
      invariant 0 <= j <= b.d
      invariant Accumulated(r, Partial(av, bv, i, j), tooBig) && (was ==> r.overflow) && (r.overflow ==> was)
      invariant !r.overflow && 0 < j ==> i + j <= r.h.Length
      invariant pp.Valid() && av == a.h[..a.d] && bv == b.h[..b.d]
    {
      MulDigit(a, b, i, j, pp, r);
      if r.overflow {
        if i == 0 && a.d == 1 && b.d <= r.h.Length && !was {
          SingleRow(av, bv, j, r.h.Length, r.Abs());
        }
        break;
      }
      j := j + 1;
    }
  }

  /** A single digit times a number that is no longer than the result can only fail at the last
      digit of a number that is just as long. */
  lemma SingleRow(av: seq<Digit>, bv: seq<Digit>, j: nat, m: nat, left: nat)
    requires |av| == 1 && j < |bv| <= m
    requires if NoRoomFor(av[0], bv[j], j, m) then left == Partial(av, bv, 0, j)
             else left + Pow(m) == Partial(av, bv, 0, j + 1)
    ensures |bv| == m && left == Leftover(av[0], bv, m)
  {
    hide Val, Pow, Low;
    var x: nat := av[0];
    SingleRowPartial(av, bv, j);
    SingleRowPartial(av, bv, j + 1);
    if j + 1 < m {
      LowAtMost(bv, j + 1);
      MulMonotonic(x, 65536, Low(bv, j + 1));
      MulMonotonic(Low(bv, j + 1), Pow(j + 1), 65536);
      PowNext(j + 1);
      PowMonotonic(j + 2, m);
    } else {
      LowAll(bv, m);
    }
  }

  lemma SingleRowPartial(av: seq<Digit>, bv: seq<Digit>, j: nat)
    requires |av| == 1
    ensures Partial(av, bv, 0, j) == av[0] as int * Low(bv, j)
  {
    hide Low;
    LowStart(av);
    var p: nat := av[0] as int * Low(bv, j);
    ScaleFacts(p, 0);
    assert Low(av, 0) * Val(bv) == 0;
  }

  /** `int_mul`.  The result is normalised whatever the operands; the flag is exact. */
  method Mul(a: Int, b: Int, r: Int)
    requires a.Valid() && b.Valid() && r.Valid()
    requires r != a && r != b && Apart(a, r) && Apart(b, r)
    modifies r, r.h
    ensures r.Valid() && r.neg == (a.neg != b.neg)
    ensures r.overflow <==> MulOverflows(a.Abs(), b.Abs(), a.d, b.d, r.h.Length)
    ensures !r.overflow ==> r.Norm() && r.Value() == a.Value() * b.Value()
    ensures a.d == 1 && b.d <= r.h.Length && r.overflow ==>
              b.d == r.h.Length && r.Abs() == Leftover(a.h[0], b.h[..b.d], b.d)
  {
    hide Val, Pow, Partial, Low, Scale, MulOverflows, Leftover;
    ghost var av, bv := a.h[..a.d], b.h[..b.d];
    var pp := new Int(254);
    SetI(0, r);
    PowMonotonic(0, r.h.Length);
    PartialStart(av, bv, 0);
    ghost var tooBig := MulOverflows(Val(av), Val(bv), a.d, b.d, r.h.Length);
    var i := 0;
    while i < a.d
      invariant 0 <= i <= a.d
      invariant Accumulated(r, Partial(av, bv, i, 0), tooBig)
      invariant !r.overflow && 0 < i ==> i + b.d - 1 <= r.h.Length
      invariant pp.Valid() && pp.h.Length == 254 && fresh(pp) && fresh(pp.h)
      invariant av == a.h[..a.d] && bv == b.h[..b.d] && !r.neg
      invariant i == 0 ==> !r.overflow
      invariant a.d == 1 && b.d <= r.h.Length && r.overflow ==> b.d == r.h.Length && r.Abs() == Leftover(a.h[0], bv, b.d)
    {
      MulRow(a, b, i, pp, r);
      PartialStart(av, bv, i);
      i := i + 1;
    }
    PartialStart(av, bv, 0);
    SignedProduct(a.Abs(), b.Abs());
    if !r.overflow {
      ValBound(r.h[..r.d]);
      PowMonotonic(r.d, r.h.Length);
      MulFits(av, bv, r.h.Length);
    }
    r.neg := a.neg != b.neg;
  }

  lemma MulFits(av: seq<Digit>, bv: seq<Digit>, m: nat)
    requires Val(av) * Val(bv) < Pow(m) && |av| + |bv| - 1 <= m
    ensures !MulOverflows(Val(av), Val(bv), |av|, |bv|, m)
  {
  }

  /** For operands other than zero the flag means exactly that the product does not fit. */
  lemma MulOverflowTight(a: Int, b: Int, m: nat)
    requires a.Valid() && b.Valid() && a.Norm() && b.Norm()
    requires a.Value() != 0 && b.Value() != 0
    ensures MulOverflows(a.Abs(), b.Abs(), a.d, b.d, m) <==> Pow(m) <= a.Abs() * b.Abs()
  {
    hide Val, Pow;
    NormBounds(a);
    NormBounds(b);
    if m < a.d + b.d - 1 {
      PowTwo();
      PowMonotonic(0, 0);
      PowAdd(a.d - 1, b.d - 1);
      PowMonotonic(m, a.d - 1 + (b.d - 1));
      LongProduct(a.Abs(), b.Abs(), a.d, b.d);
    }
  }

  lemma LongProduct(x: nat, y: nat, ad: nat, bd: nat)
    requires 1 <= ad && 1 <= bd && 1 <= x && 1 <= y
    requires 1 < ad ==> Pow(ad - 1) <= x
    requires 1 < bd ==> Pow(bd - 1) <= y
    ensures Pow(ad - 1) * Pow(bd - 1) <= x * y
  {
    hide Pow;
    PowZero();
    var p, q := Pow(ad - 1), Pow(bd - 1);
    MulMonotonic(p, x, q);
    MulMonotonic(q, y, x);
  }

  lemma PowZero()
    ensures Pow(0) == 1
  {
  }

  /** The flag of a product says that it does not fit if and only if neither factor is zero or the
      lengths leave room. */
  lemma MulFlagIsExactIff(a: Int, b: Int, m: nat)
    requires a.Invariant() && b.Invariant()
    ensures (MulOverflows(a.Abs(), b.Abs(), a.d, b.d, m) <==> Pow(m) <= a.Abs() * b.Abs())
            <==> (a.Value() != 0 && b.Value() != 0) || a.d + b.d - 1 <= m
  {
    hide Val, Pow;
    if a.Value() != 0 && b.Value() != 0 {
      MulOverflowTight(a, b, m);
    }
  }

  /** A run of the other case: zero times a number of three digits overflows two. */
  method MulZeroOverflows() returns (a: Int, b: Int, r: Int)
    ensures a.Invariant() && a.Value() == 0 && b.Invariant() && b.d == 3 && b.Value() == Pow(2)
    ensures r.h.Length == 2 && r.overflow
  {
    hide Val, Pow;
    a := new Int(2);
    b := new Int(4);
    r := new Int(2);
    b.h[0], b.h[1], b.h[2], b.h[3] := 0, 0, 1, 0;
    b.d := 3;
    assert b.h[..3] == [0, 0, 1];
    OneAndTwoZeros();
    Mul(a, b, r);
  }

  lemma OneAndTwoZeros()
    ensures Val([0, 0, 1]) == Pow(2)
  {
    var s: seq<Digit> := [0, 0, 1];
    assert s[..2] == [0, 0] && s[..2][..1] == [0] && s[..2][..1][..0] == [];
    assert Val(s[..2]) == Val(s[..2][..1]) + s[..2][1] * Pow(1);
  }

  lemma SignedProduct(x: int, y: int)
    ensures (-x) * y == -(x * y) && x * (-y) == -(x * y) && (-x) * (-y) == x * y
  {
  }
}
