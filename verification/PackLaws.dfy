/** The bytes of a package, place by place: what another reader of the format would find. */
module PackLaws {
  import opened PackFormat
  import opened Pack
  import PackLoad

  /** Numbers of two, three and four bytes are written and read low byte first. */
  lemma LowByteFirst(a: Byte, b: Byte, c: Byte, d: Byte)
    ensures var two: nat, three: nat, four: nat := a + 256 * b, a + 256 * b + 65536 * c,
                                                   a + 256 * b + 65536 * c + 16777216 * d;
            && LE16(two) == [a, b] && Read16([a, b, c, d], 0) == two
            && LE24(three) == [a, b, c] && Read24([a, b, c, d], 0) == three
            && LE32(four) == [a, b, c, d] && Read32([a, b, c, d], 0) == four
  {
    Bytes(a + 256 * (b + 256 * (c + 256 * d)), a, b, c, d);
    Bytes(a + 256 * (b + 256 * c), a, b, c, 0);
    Bytes(a + 256 * b, a, b, 0, 0);
  }

  lemma Bytes(n: nat, a: Byte, b: Byte, c: Byte, d: Byte)
    requires n == a + 256 * (b + 256 * (c + 256 * d))
    ensures Low(n) == a && Low(n / 256) == b && Low(n / 65536) == c && Low(n / 16777216) == d
  {
    LowAndRest(a, b + 256 * (c + 256 * d));
    LowAndRest(b, c + 256 * d);
    LowAndRest(c, d);
    assert n / 65536 == n / 256 / 256 && n / 16777216 == n / 256 / 256 / 256;
  }

  lemma LowAndRest(a: Byte, m: nat)
    ensures Low(a + 256 * m) == a && (a + 256 * m) / 256 == m
  {
  }

  /** What is written at a place is read there. */
  lemma ReadAt32(p: seq<Byte>, o: nat, n: nat)
    requires o + 4 <= |p| && p[o..o + 4] == LE32(n) && n < 4294967296
    ensures Read32(p, o) == n
  {
    hide LE32;
    ReadBack(n);
    assert p[o] == p[o..o + 4][0] && p[o + 1] == p[o..o + 4][1] && p[o + 2] == p[o..o + 4][2] && p[o + 3] == p[o..o + 4][3];
  }

  /** The header: magic number, version, the counts of functions, strings, doubles, integers, lines (none) and
      addresses, and the length of what follows. */
  lemma HeaderBytes(f: Files)
    requires PackLoad.Fits(f)
    ensures var p := Package(f);
            && |p| >= 24
            && p[..8] == [0x79, 0x0a, 0x72, 0x67, 0xff, 0x42, 0x05, 0x26]
            && Read16(p, 8) == |f.funs| && Read16(p, 10) == |f.strings| && Read16(p, 12) == |f.doubles|
            && Read16(p, 14) == |f.ints| && p[16..18] == [0, 0] && Read16(p, 18) == |f.addresses|
            && Read32(p, 20) == |p| - 24
  {
    hide Cat, BodyParts, BodyLength, LE16, LE32, Read16, Read32;
    PackageBegins(f);
    var h := Header(f, BodyLength(f));
    var p := Package(f);
    HeaderFields(f, BodyLength(f));
    assert forall i, j | 0 <= i <= j <= 24 :: p[i..j] == h[i..j];
    PackLoad.Read16At(p, 8, |f.funs|);
    PackLoad.Read16At(p, 10, |f.strings|);
    PackLoad.Read16At(p, 12, |f.doubles|);
    PackLoad.Read16At(p, 14, |f.ints|);
    PackLoad.Read16At(p, 18, |f.addresses|);
    BodyIsThatLong(f);
    ReadAt32(p, 20, BodyLength(f));
    NoLines();
  }

  lemma HeaderFields(f: Files, n: nat)
    ensures var h := Header(f, n);
            && h[8..10] == LE16(|f.funs|) && h[10..12] == LE16(|f.strings|) && h[12..14] == LE16(|f.doubles|)
            && h[14..16] == LE16(|f.ints|) && h[16..18] == LE16(0) && h[18..20] == LE16(|f.addresses|)
            && h[20..24] == LE32(n)
  {
    hide LE16, LE32;
  }

  lemma NoLines()
    ensures LE16(0) == [0, 0]
  {
  }

  lemma BodyIsThatLong(f: Files)
    requires PackLoad.Fits(f)
    ensures |Package(f)| == 24 + BodyLength(f)
  {
    hide Cat, ChunkParts, IntParts, StringParts, CodeParts, BodyParts, Header;
    CatSections(f);
    CatEights(f.doubles);
    CatEights(f.addresses);
  }

  /** After it: doubles, addresses, functions with their constants, integers, strings, code. */
  lemma SectionsInOrder(f: Files)
    requires AllNumbers(f.ints)
    ensures Package(f)[24..] == Cat(f.doubles) + Cat(f.addresses) + Cat(ChunkParts(f.funs)) + Cat(IntParts(f.ints))
                                + Cat(StringParts(f.strings)) + Cat(CodeParts(f.funs))
  {
    hide Cat, BodyLength;
    CatSections(f);
  }

  /** The constants of a function, four bytes each: the type, which is 0 for a string, 1 for an integer, 2 for a double, 3 for
      a function and 4 for an address; then, low byte first, the place of a string or an integer in bytes from
      the first of them, and the number of any other. */
  lemma ConstantBytes(f: Files, i: nat, k: nat)
    requires PackLoad.Fits(f) && Complete(f) && Placed(f) && i < |f.funs| && k < |f.funs[i].f.constants|
    ensures |f.funs[i].items| == |f.funs[i].f.constants|
    ensures var p, c, item := ChunkPart(f.funs[i], i), f.funs[i].f.constants[k], f.funs[i].items[k];
            && p[8 + 4 * k] == TypeByte(c) && InItsFile(f, c, item.index)
            && Read24(p, 9 + 4 * k) == (match c case Str(_) => Offset(StringParts(f.strings), item.index)
                                                case Number(_, _) => Offset(IntParts(f.ints), item.index)
                                                case _ => item.index)
  {
    hide Cat, Offset, BodyLength, ItemsBytes, LE24, LE16, Placed, PackLoad.Fits, Complete, Represents, Read24;
    PackLoad.IsComplete(f, i);
    StandsFor(f, f.funs[i].items[k], f.funs[i].f.constants[k]);
    PackLoad.ItemPlaced(f, i, k);
    var items := f.funs[i].items;
    var item := items[k];
    PackLoad.ItemsAt(items, k);
    var p := ChunkPart(f.funs[i], i);
    assert p[8..] == ItemsBytes(items);
    assert p[8 + 4 * k..8 + 4 * k + 4] == ItemBytes(item);
    assert p[8 + 4 * k] == ItemBytes(item)[0];
    var n := if item.kind == 0 || item.kind == 1 then item.offset else item.index;
    assert p[9 + 4 * k..9 + 4 * k + 3] == ItemBytes(item)[1..] == LE24(n);
    PackLoad.Read24At(p, 9 + 4 * k, n);
  }

  /** The byte that says what a constant is. */
  function TypeByte(c: Const): Byte {
    match c
    case Str(_) => 0
    case Number(_, _) => 1
    case Double(_) => 2
    case Function(_) => 3
    case Address(_) => 4
  }

  predicate InItsFile(f: Files, c: Const, i: nat) {
    match c
    case Str(s) => i < |f.strings| && f.strings[i] == s
    case Number(_, _) => i < |f.ints| && f.ints[i] == c
    case Double(b) => i < |f.doubles| && f.doubles[i] == b
    case Function(g) => i < |f.funs| && f.funs[i].f == g
    case Address(b) => i < |f.addresses| && f.addresses[i] == b
  }

  lemma StandsFor(f: Files, item: ConstItem, c: Const)
    requires Stands(f, item, c, 1)
    ensures item.kind == TypeByte(c) && InItsFile(f, c, item.index)
  {
    if c.Function? {
      assert Represents(f, item.index, c.f, 1);
    }
  }

  /** An integer: whether it is negative, a free byte, its digits, room for an even number of them, and the
      digits, least significant first. */
  lemma IntegerBytes(n: Const, k: nat)
    requires n.Number? && |n.digits| <= 254 && k < |n.digits|
    ensures var p := IntPart(n);
            && |p| == 4 + 2 * (|n.digits| + |n.digits| % 2)
            && p[0] == (if n.neg then 1 else 0) && p[1] == 0 && p[2] == |n.digits| && p[3] == |n.digits| + |n.digits| % 2
            && Read16(p, 4 + 2 * k) == n.digits[k]
  {
    hide DigitBytes, LE16, Read16;
    var p := IntPart(n);
    PackLoad.DigitsAt(n.digits, k);
    assert p[4..4 + 2 * |n.digits|] == DigitBytes(n.digits);
    assert p[4 + 2 * k..4 + 2 * k + 2] == DigitBytes(n.digits)[2 * k..2 * k + 2] == LE16(n.digits[k]);
    PackLoad.Read16At(p, 4 + 2 * k, n.digits[k]);
  }

  /** A string and the zero that ends it; code as it is. */
  lemma StringBytes(s: seq<Byte>, fun: FlatFun)
    ensures StringPart(s) == s + [0] && CodeParts([fun]) == [fun.f.code]
  {
  }

  // ---- reading the loaded functions ----

  /** The tree of functions that the objects hold, as far down as `d`. */
  ghost function Held(o: PackLoad.ObjFunction, all: set<PackLoad.ObjFunction>, d: nat): Fun
    requires o in all
    reads all
    decreases d, 1
  {
    Fun(o.code, o.arity, o.upvalueCount,
        seq(|o.constants|, k requires 0 <= k < |o.constants| reads all => HeldConstant(o.constants[k], all, d)))
  }

  ghost function HeldConstant(v: PackLoad.Value, all: set<PackLoad.ObjFunction>, d: nat): Const
    reads all
    decreases d, 0
  {
    match v
    case StringVal(s) => Str(s)
    case IntVal(neg, digits) => Number(neg, digits)
    case DoubleVal(b) => if |b| == 8 then Double(b) else Str([])
    case AddressVal(b) => if |b| == 8 then Address(b) else Str([])
    case FunctionVal(f) => if d > 0 && f in all then Function(Held(f, all, d - 1)) else Str([])
  }

  /** How deep functions are nested in each other. */
  ghost function Depth(g: Fun): nat
    decreases g, |g.constants| + 1
  {
    DepthAmong(g, |g.constants|)
  }

  ghost function DepthAmong(g: Fun, n: nat): nat
    requires n <= |g.constants|
    decreases g, n
  {
    if n == 0 then 0
    else
      var c := g.constants[n - 1];
      var before, here := DepthAmong(g, n - 1), if c.Function? then 1 + Depth(c.f) else 0;
      if before < here then here else before
  }

  lemma {:induction false} DeeperThanEach(g: Fun, n: nat, k: nat)
    requires k < n <= |g.constants| && g.constants[k].Function?
    ensures Depth(g.constants[k].f) < DepthAmong(g, n)
    decreases n
  {
    if k < n - 1 {
      DeeperThanEach(g, n - 1, k);
    }
  }

  lemma {:induction false} MatchesHeld(o: PackLoad.ObjFunction, g: Fun, all: set<PackLoad.ObjFunction>, d: nat)
    requires PackLoad.Matches(o, g, all) && Depth(g) <= d
    ensures Held(o, all, d) == g
    decreases g
  {
    forall k | 0 <= k < |g.constants| ensures HeldConstant(o.constants[k], all, d) == g.constants[k] {
      assert PackLoad.SameConstant(o.constants[k], g.constants[k], all);
      if g.constants[k].Function? {
        DeeperThanEach(g, |g.constants|, k);
        MatchesHeld(o.constants[k].f, g.constants[k].f, all, d - 1);
      }
    }
    assert Held(o, all, d).constants == g.constants;
  }

  /** A script that is packed and loaded again: the objects hold the tree of functions that it was, with the
      script's own arity and upvalues zero. */
  method LoadAgain(script: Fun) returns (r: PackLoad.ObjFunction?, files: Files, ghost all: set<PackLoad.ObjFunction>)
    ensures PackLoad.Fits(files) ==>
              r != null && r in all && Held(r, all, Depth(script)) == Fun(script.code, 0, 0, script.constants)
  {
    hide PackLoad.Fits, Complete, Held;
    r, files, all := PackLoad.PackAndLoad(script);
    if r != null && PackLoad.Matches(r, PackLoad.AsScript(script), all) {
      SameDepth(script, PackLoad.AsScript(script), |script.constants|);
      MatchesHeld(r, PackLoad.AsScript(script), all, Depth(script));
    }
  }

  lemma {:induction false} SameDepth(g: Fun, h: Fun, n: nat)
    requires g.constants == h.constants && n <= |g.constants|
    ensures DepthAmong(g, n) == DepthAmong(h, n)
    decreases n
  {
    if n > 0 {
      SameDepth(g, h, n - 1);
    }
  }

  // ---- a whole package ----

  /** The package of a script with one constant, the string `hi`, and what is loaded from it. */
  method PackHi() returns (file: seq<Byte>, r: PackLoad.ObjFunction?)
    ensures file == [0x79, 0x0a, 0x72, 0x67, 0xff, 0x42, 0x05, 0x26, 1, 0, 1, 0, 0, 0, 0, 0, 0, 0, 0, 0, 17, 0, 0, 0,
                     1, 0, 2, 0, 0, 0, 0, 0, 0, 0, 0, 0, 0x68, 0x69, 0, 1, 42]
    ensures r != null && r.code == [1, 42] && r.arity == r.upvalueCount == 0
    ensures r.constants == [PackLoad.StringVal([0x68, 0x69])]
  {
    hide Whole, Package, Complete, Placed, PackLoad.Fits;
    var script := Fun([1, 42], 3, 2, [Str([0x68, 0x69])]);
    var files;
    file, files := PackScript(script);
    TallyOfOne(script, script.constants[0]);
    HiFiles(files, script, [0x68, 0x69]);
    HiBytes(files);
    HiFits(files);
    assert PackLoad.Holds(file, files);
    ghost var all;
    r, all := PackLoad.LoadPackageFromBuffer(file, files);
    assert PackLoad.SameConstant(r.constants[0], script.constants[0], all);
  }

  /** A script without functions among its constants: what it has itself. */
  lemma TallyOfOne(g: Fun, c: Const)
    requires g.constants == [c] && !c.Function?
    ensures Whole(g) == OneConst(c)
  {
    hide OneConst, Direct, Nested;
    DirectOfOne(c);
    NestedInNone(g, c);
    assert OneConst(c).strings + NONE.strings == OneConst(c).strings;
  }

  lemma DirectOfOne(c: Const)
    ensures Direct([c]) == OneConst(c)
  {
    hide OneConst;
    assert [c][..0] == [];
    assert NONE.strings + OneConst(c).strings == OneConst(c).strings;
  }

  lemma NestedInNone(g: Fun, c: Const)
    requires g.constants == [c] && !c.Function?
    ensures Nested(g, 1) == NONE
  {
    hide OneConst, Whole, Direct;
    assert NONE.strings + NONE.strings == NONE.strings;
    assert Nested(g, 0) == NONE;
  }

  lemma HiFiles(files: Files, script: Fun, hi: seq<Byte>)
    requires script.constants == [Str(hi)]
    requires Complete(files) && files.funs[0].f == script && AllNumbers(files.ints) && Placed(files)
    requires DistinctStrings(files.strings) && |files.ints| == |files.doubles| == |files.addresses| == 0
    requires |files.funs| == 1 && (set s | s in files.strings) == {hi}
    ensures files == Files([hi], [], [], [FlatFun(script, [ConstItem(0, 0, 0)])], [])
  {
    hide Cat;
    OnlyString(files.strings, hi);
    assert Represents(files, 0, script, 1);
    assert Stands(files, files.funs[0].items[0], script.constants[0], 1);
    assert PlacedAt(files.funs, 0, 0, Offset(StringParts(files.strings), 0));
    assert files.funs[0].items == [ConstItem(0, 0, 0)];
    assert files.funs == [FlatFun(script, [ConstItem(0, 0, 0)])];
  }

  lemma OnlyString(strings: seq<seq<Byte>>, hi: seq<Byte>)
    requires DistinctStrings(strings) && (set s | s in strings) == {hi}
    ensures strings == [hi]
  {
    var all := set s | s in strings;
    forall i | 0 <= i < |strings| ensures strings[i] == hi {
      assert strings[i] in all;
    }
    assert hi in all;
    assert strings[|strings| - 1] == strings[0];
  }

  const HI_FILES := Files([[0x68, 0x69]], [], [], [FlatFun(Fun([1, 42], 3, 2, [Str([0x68, 0x69])]), [ConstItem(0, 0, 0)])], [])

  lemma HiBytes(files: Files)
    requires files == HI_FILES
    ensures AllNumbers(files.ints)
    ensures Package(files) == [0x79, 0x0a, 0x72, 0x67, 0xff, 0x42, 0x05, 0x26, 1, 0, 1, 0, 0, 0, 0, 0, 0, 0, 0, 0, 17, 0, 0, 0,
                               1, 0, 2, 0, 0, 0, 0, 0, 0, 0, 0, 0, 0x68, 0x69, 0, 1, 42]
  {
    hide Cat, BodyLength, Header, ChunkParts, StringParts, CodeParts, IntParts;
    CatSections(files);
    HiSections(files);
    HiLength(files);
    HiHeader(files);
  }

  lemma HiSections(files: Files)
    requires files == HI_FILES
    ensures Cat(ChunkParts(files.funs)) == [1, 0, 2, 0, 0, 0, 0, 0, 0, 0, 0, 0]
    ensures Cat(StringParts(files.strings)) == [0x68, 0x69, 0] && Cat(CodeParts(files.funs)) == [1, 42]
    ensures Cat(IntParts([])) == [] && Cat([]) == []
  {
    OnePart(ChunkParts(files.funs));
    OnePart(StringParts(files.strings));
    OnePart(CodeParts(files.funs));
    assert ItemsBytes([ConstItem(0, 0, 0)]) == ItemBytes(ConstItem(0, 0, 0)) + ItemsBytes([]);
  }

  lemma HiLength(files: Files)
    requires files == HI_FILES
    ensures BodyLength(files) == 17
  {
    hide Cat, ChunkParts, StringParts, CodeParts, IntParts;
    HiSections(files);
  }

  lemma HiFits(files: Files)
    requires files == HI_FILES
    ensures AllNumbers(files.ints) && PackLoad.Fits(files)
  {
    hide BodyLength, Cat;
    HiLength(files);
  }

  lemma HiHeader(files: Files)
    requires files == HI_FILES
    ensures Header(files, 17) == [0x79, 0x0a, 0x72, 0x67, 0xff, 0x42, 0x05, 0x26, 1, 0, 1, 0, 0, 0, 0, 0, 0, 0, 0, 0, 17, 0, 0, 0]
  {
  }

  lemma OnePart(parts: seq<seq<Byte>>)
    requires |parts| == 1
    ensures Cat(parts) == parts[0]
  {
    assert Cat(parts[1..]) == [];
  }
}
