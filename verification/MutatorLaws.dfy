/** What a program on the heap sees, said of any heap it may have got to: which comparisons come out true. */
module MutatorLaws {
  import opened Mutator

  /** Cells that registers and cells refer to are there. */
  predicate Sound(s: Ideal) {
    && (forall r :: 0 <= r < |s.registers| && s.registers[r].CellNumber? ==> s.registers[r].id < |s.cells|)
    && forall c :: 0 <= c < |s.cells| && s.cells[c].CellNumber? ==> s.cells[c].id < |s.cells|
  }

  lemma StaysSound(op: Op, s: Ideal)
    requires Sound(s)
    ensures Sound(Does(op, s)) && |Does(op, s).registers| == |s.registers|
  {
  }

  /** What a comparison adds to what has been seen. */
  predicate Sees(s: Ideal, r: nat, x: nat, same: bool) {
    Does(Compare(r, x), s).out == s.out + [same]
  }

  /** Strings are the same object exactly when their contents are, whenever collections came. */
  lemma StringsCompare(s: Ideal, r: nat, x: nat, a: seq<bv8>, b: seq<bv8>, f: bool, g: bool, h: bool, i: bool)
    requires r < |s.registers| && x < |s.registers| && r != x
    ensures Sees(Does(Text(x, b, h, i), Does(Text(r, a, f, g), s)), r, x, a == b)
  {
  }

  /** A new cell is none that there was, no string, and not nothing. */
  lemma CellsAreNew(s: Ideal, r: nat, x: nat, f: bool)
    requires Sound(s) && r < |s.registers| && x < |s.registers|
    ensures Sees(Does(NewCell(r, f), s), r, x, r == x)
    ensures r != x ==> Sees(Does(NewCell(r, f), Does(Clear(x), s)), r, x, false)
  {
  }

  /** What was put into a cell is what is got out of it. */
  lemma GetWhatWasPut(s: Ideal, r: nat, x: nat, y: nat, f: bool)
    requires Sound(s) && r < |s.registers| && x < |s.registers| && y < |s.registers| && r != x && r != y
    ensures Sees(Does(Get(y, r), Does(Put(r, x), Does(NewCell(r, f), s))), y, x, true)
  {
  }

  /** It stays there until something is put into the same cell, by whatever register holds it. */
  lemma PutElsewhere(s: Ideal, r: nat, x: nat, z: nat, w: nat, y: nat)
    requires Sound(s) && r < |s.registers| && x < |s.registers| && z < |s.registers| && w < |s.registers| && y < |s.registers|
    requires s.registers[r].CellNumber? && s.registers[z].CellNumber? && y != x && y != w
    ensures var after := Does(Get(y, r), Does(Put(z, w), Does(Put(r, x), s)));
            if s.registers[r] == s.registers[z] then Sees(after, y, w, true) else Sees(after, y, x, true)
  {
  }

  /** A cell that is fetched from another cell is the cell itself: what is put into it is there for both. */
  lemma CellsAreShared(s: Ideal, r: nat, x: nat, y: nat, z: nat, f: bool, g: bool)
    requires Sound(s) && r < |s.registers| && x < |s.registers| && y < |s.registers| && z < |s.registers|
    requires r != x && r != y && x != y && z != r && z != x && z != y
    ensures var apart := Does(NewCell(x, g), Does(NewCell(r, f), s));
            var fetched := Does(Get(y, x), Does(Put(x, r), apart));
            && Sees(fetched, y, r, true) && Sees(fetched, x, r, false)
            && Sees(Does(Get(x, r), Does(Put(y, z), fetched)), x, z, true)
  {
    StaysSound(NewCell(r, f), s);
    var apart := Does(NewCell(x, g), Does(NewCell(r, f), s));
    var fetched := Does(Get(y, x), Does(Put(x, r), apart));
    assert fetched.registers[y] == CellNumber(|s.cells|);
  }

  /** A new cell holds nothing, which is what a register holds that is cleared. */
  lemma NewCellsAreEmpty(s: Ideal, r: nat, x: nat, y: nat, f: bool)
    requires Sound(s) && r < |s.registers| && x < |s.registers| && y < |s.registers| && r != x && y != x
    ensures Sees(Does(Get(y, r), Does(Clear(x), Does(NewCell(r, f), s))), y, x, true)
  {
  }

  /** Collections are not seen, nor is it seen when they come; registers that are not there do nothing. */
  lemma NothingToSee(s: Ideal, r: nat, x: nat, chars: seq<bv8>, f: bool, g: bool)
    ensures Does(Collect, s) == s
    ensures Does(Text(r, chars, f, g), s) == Does(Text(r, chars, false, false), s)
    ensures Does(NewCell(r, f), s) == Does(NewCell(r, false), s)
    ensures r >= |s.registers| ==>
              && Does(Text(r, chars, f, g), s) == Does(NewCell(r, f), s) == Does(Clear(r), s) == s
              && Does(Put(r, x), s) == Does(Put(x, r), s) == Does(Get(r, x), s) == Does(Get(x, r), s) == s
              && Does(Compare(r, x), s) == Does(Compare(x, r), s) == s
  {
  }

  lemma {:induction false} OneAfterTheOther(a: seq<Op>, b: seq<Op>, s: Ideal)
    ensures DoesAll(a + b, s) == DoesAll(b, DoesAll(a, s))
    decreases |a|
  {
    if a == [] {
      assert a + b == b;
    } else {
      assert (a + b)[1..] == a[1..] + b;
      OneAfterTheOther(a[1..], b, Does(a[0], s));
    }
  }

  /** A cell with a string in it, of which nothing else knows, and a collection: the string is still there,
      as a string that is made again shows. */
  method KeepString(chars: seq<bv8>, other: seq<bv8>) returns (out: seq<bool>)
    ensures out == [true, chars == other]
  {
    hide Does;
    var program := [Text(0, chars, true, true), NewCell(1, true), Put(1, 0), Clear(0), Collect, Get(0, 1),
                    Text(2, chars, true, true), Compare(0, 2), Text(2, other, true, true), Compare(0, 2)];
    out := Observe(program, 3);
    KeepStringSees(program, chars, other);
  }

  lemma KeepStringSees(program: seq<Op>, chars: seq<bv8>, other: seq<bv8>)
    requires program == [Text(0, chars, true, true), NewCell(1, true), Put(1, 0), Clear(0), Collect, Get(0, 1),
                         Text(2, chars, true, true), Compare(0, 2), Text(2, other, true, true), Compare(0, 2)]
    ensures DoesAll(program, Ideal(seq(3, _ => Nothing), [], [])).out == [true, chars == other]
  {
    hide Does;
    var start := Ideal(seq(3, _ => Nothing), [], []);
    assert start.registers == [Nothing, Nothing, Nothing];
    var half := Ideal([Contents(chars), CellNumber(0), Nothing], [Contents(chars)], []);
    assert program == program[..6] + program[6..];
    FirstHalf(program[..6], start, chars);
    OneAfterTheOther(program[..6], program[6..], start);
    SecondHalf(program[6..], half, chars, other);
  }

  lemma FirstHalf(ops: seq<Op>, s: Ideal, chars: seq<bv8>)
    requires ops == [Text(0, chars, true, true), NewCell(1, true), Put(1, 0), Clear(0), Collect, Get(0, 1)]
    requires s == Ideal([Nothing, Nothing, Nothing], [], [])
    ensures DoesAll(ops, s) == Ideal([Contents(chars), CellNumber(0), Nothing], [Contents(chars)], [])
  {
    hide DoesAll;
    Unfold(ops, s);
    var s1 := Does(ops[0], s);
    Unfold(ops[1..], s1);
    var s2 := Does(ops[1], s1);
    Unfold(ops[2..], s2);
    var s3 := Does(ops[2], s2);
    Unfold(ops[3..], s3);
    var s4 := Does(ops[3], s3);
    Unfold(ops[4..], s4);
    Unfold(ops[5..], s4);
    Unfold(ops[6..], Does(ops[5], s4));
  }

  lemma SecondHalf(ops: seq<Op>, s: Ideal, chars: seq<bv8>, other: seq<bv8>)
    requires ops == [Text(2, chars, true, true), Compare(0, 2), Text(2, other, true, true), Compare(0, 2)]
    requires s == Ideal([Contents(chars), CellNumber(0), Nothing], [Contents(chars)], [])
    ensures DoesAll(ops, s).out == [true, chars == other]
  {
    hide DoesAll;
    Unfold(ops, s);
    var s1 := Does(ops[0], s);
    Unfold(ops[1..], s1);
    var s2 := Does(ops[1], s1);
    Unfold(ops[2..], s2);
    var s3 := Does(ops[2], s2);
    Unfold(ops[3..], s3);
    Unfold(ops[4..], Does(ops[3], s3));
  }

  lemma Unfold(ops: seq<Op>, s: Ideal)
    ensures DoesAll(ops, s) == if ops == [] then s else DoesAll(ops[1..], Does(ops[0], s))
  {
    hide Does;
  }
}
