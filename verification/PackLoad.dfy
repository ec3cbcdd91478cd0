/** Loading a package (cyarg/pack_load.c): a cursor moves over the sections, and the functions are
    put together again from what it finds.  Loading undoes packing. */
module PackLoad {
  import opened PackFormat
  import Pack

  datatype Value =
    | StringVal(chars: seq<Byte>)
    | IntVal(neg: bool, digits: seq<Digit>)
    | DoubleVal(bytes: seq<Byte>)
    | FunctionVal(f: ObjFunction)
    | AddressVal(bytes: seq<Byte>)

  class ObjFunction {
    var code: seq<Byte>
    var arity: nat
    var upvalueCount: nat
    var constants: seq<Value>

    constructor ()
      ensures constants == []
    {
      code, arity, upvalueCount, constants := [], 0, 0, [];
    }
  }

  /** What the fields of the format can hold. */
  predicate Fits(f: Files) {
    && |f.funs| <= 256 && |f.strings| < 65536 && |f.doubles| < 65536 && |f.ints| < 65536 && |f.addresses| < 65536
    && AllNumbers(f.ints)
    && (forall i :: 0 <= i < |f.ints| ==> |f.ints[i].digits| <= 254)
    && (forall i :: 0 <= i < |f.strings| ==> 0 !in f.strings[i])
    && (forall i :: 0 <= i < |f.funs| ==>
          && |f.funs[i].items| < 65536 && |f.funs[i].f.code| < 65536
          && (0 < i ==> f.funs[i].f.arity < 65536 && f.funs[i].f.upvalueCount < 65536))
    && (forall i :: 0 <= i < |f.ints| ==> Offset(IntParts(f.ints), i) < 16777216)
    && (forall i :: 0 <= i < |f.strings| ==> Offset(StringParts(f.strings), i) < 16777216)
    && BodyLength(f) < 4294967296
  }

  predicate Back16(n: nat) {
    Read16(LE16(n), 0) == n
  }

  /** Every field of the format, read as the loader reads it, is what was to be written. */
  predicate ReadsBack(f: Files)
    requires AllNumbers(f.ints)
  {
    && Back16(|f.strings|) && Back16(|f.doubles|) && Back16(|f.ints|) && Back16(|f.addresses|)
    && (forall i :: 0 <= i < |f.ints| ==>
          var d := |f.ints[i].digits|; Low(d) == d && Low(d + d % 2) == d + d % 2)
    && (forall i :: 0 <= i < |f.strings| ==> TillZero(StringPart(f.strings[i])) == f.strings[i])
    && (forall i :: 0 <= i < |f.funs| ==>
          && Back16(|f.funs[i].items|) && Back16(|f.funs[i].f.code|)
          && (0 < i ==> Back16(f.funs[i].f.arity) && Back16(f.funs[i].f.upvalueCount)))
    && (forall i :: 0 <= i < |f.ints| ==> Read24(LE24(Offset(IntParts(f.ints), i)), 0) == Offset(IntParts(f.ints), i))
    && (forall i :: 0 <= i < |f.strings| ==> Read24(LE24(Offset(StringParts(f.strings), i)), 0) == Offset(StringParts(f.strings), i))
    && Read32(LE32(BodyLength(f)), 0) == BodyLength(f)
  }

  /** The files fit the format if and only if every field reads back, and there are no more functions
      than the loader has places for their beginnings. */
  lemma FitsIff(f: Files)
    requires AllNumbers(f.ints)
    ensures Fits(f) <==> |f.funs| <= 256 && ReadsBack(f)
  {
    hide Read16, Read24, Read32, LE16, LE24, LE32, TillZero, StringPart, Offset, Cat, BodyLength;
    forall n: nat ensures Back16(n) <==> n < 65536 {
      ReadBack(n);
    }
    forall n: nat ensures Read24(LE24(n), 0) == n <==> n < 16777216 {
      ReadBack(n);
    }
    ReadBack(BodyLength(f));
    forall i | 0 <= i < |f.strings| ensures TillZero(StringPart(f.strings[i])) == f.strings[i] <==> 0 !in f.strings[i] {
      StringBackIff(f.strings[i]);
    }
  }

  // ---- where things are ----

  ghost function PartAt(f: Files, k: nat): (at: nat)
    requires AllNumbers(f.ints) && k <= |BodyParts(f)|
  {
    HEADER_LENGTH + Offset(BodyParts(f), k)
  }

  ghost function FirstChunk(f: Files): nat {
    |f.doubles| + |f.addresses|
  }

  ghost function FirstInt(f: Files): nat {
    FirstChunk(f) + |f.funs|
  }

  ghost function FirstString(f: Files): nat {
    FirstInt(f) + |f.ints|
  }

  ghost function FirstCode(f: Files): nat {
    FirstString(f) + |f.strings|
  }

  /** A package whose magic number and version may have been tampered with. */
  ghost predicate Holds(buffer: seq<Byte>, f: Files)
    requires AllNumbers(f.ints)
  {
    |buffer| == |Package(f)| && buffer[8..] == Package(f)[8..]
  }

  /** Every part of the body is found where its offset says. */
  lemma PartFound(buffer: seq<Byte>, f: Files, k: nat)
    requires AllNumbers(f.ints) && Holds(buffer, f) && k < |BodyParts(f)|
    ensures PartAt(f, k) + |BodyParts(f)[k]| == PartAt(f, k + 1) <= |buffer|
    ensures buffer[PartAt(f, k)..PartAt(f, k + 1)] == BodyParts(f)[k]
  {
    hide BodyParts, BodyLength, Cat, Offset, Header;
    var parts := BodyParts(f);
    var p := Package(f);
    CatAt(parts, k);
    OffsetNext(parts, k);
    var a, b := PartAt(f, k), PartAt(f, k + 1);
    assert p[a..b] == Cat(parts)[Offset(parts, k)..Offset(parts, k + 1)];
    assert buffer[a..b] == buffer[8..][a - 8..b - 8] == p[8..][a - 8..b - 8] == p[a..b];
  }

  lemma Parts(f: Files)
    requires AllNumbers(f.ints)
    ensures |BodyParts(f)| == FirstCode(f) + |f.funs|
    ensures forall i :: 0 <= i < |f.doubles| ==> BodyParts(f)[i] == f.doubles[i]
    ensures forall i :: 0 <= i < |f.addresses| ==> BodyParts(f)[|f.doubles| + i] == f.addresses[i]
    ensures forall i :: 0 <= i < |f.funs| ==> BodyParts(f)[FirstChunk(f) + i] == ChunkPart(f.funs[i], i)
    ensures forall i :: 0 <= i < |f.ints| ==> BodyParts(f)[FirstInt(f) + i] == IntPart(f.ints[i])
    ensures forall i :: 0 <= i < |f.strings| ==> BodyParts(f)[FirstString(f) + i] == StringPart(f.strings[i])
    ensures forall i :: 0 <= i < |f.funs| ==> BodyParts(f)[FirstCode(f) + i] == f.funs[i].f.code
  {
  }

  lemma {:induction false} OffsetPrefix(a: seq<seq<Byte>>, b: seq<seq<Byte>>, k: nat)
    requires k <= |a|
    ensures Offset(a + b, k) == Offset(a, k)
  {
    if k > 0 {
      assert (a + b)[1..] == a[1..] + b;
      OffsetPrefix(a[1..], b, k - 1);
    }
  }

  lemma MiddleOffset(pre: seq<seq<Byte>>, mid: seq<seq<Byte>>, post: seq<seq<Byte>>, k: nat)
    requires k <= |mid|
    ensures Offset(pre + mid + post, |pre| + k) == |Cat(pre)| + Offset(mid, k)
    ensures Offset(pre + mid + post, |pre|) == |Cat(pre)|
  {
    hide Cat, Offset;
    assert pre + mid + post == pre + (mid + post);
    OffsetAppend(pre, mid + post, k);
    OffsetAppend(pre, mid + post, 0);
    Pack.OffsetZero(mid + post);
    OffsetPrefix(mid, post, k);
  }

  /** The offsets that were written for integers and strings count from the first of them. */
  lemma IntOffset(f: Files, k: nat)
    requires AllNumbers(f.ints) && k <= |f.ints|
    ensures PartAt(f, FirstInt(f) + k) == PartAt(f, FirstInt(f)) + Offset(IntParts(f.ints), k)
  {
    hide Cat, Offset, StringParts, IntParts, ChunkParts, CodeParts;
    var pre := f.doubles + f.addresses + ChunkParts(f.funs);
    var i, post := IntParts(f.ints), StringParts(f.strings) + CodeParts(f.funs);
    assert BodyParts(f) == pre + i + post;
    MiddleOffset(pre, i, post, k);
  }

  lemma StringOffset(f: Files, k: nat)
    requires AllNumbers(f.ints) && k <= |f.strings|
    ensures PartAt(f, FirstString(f) + k) == PartAt(f, FirstString(f)) + Offset(StringParts(f.strings), k)
  {
    hide Cat, Offset, StringParts, IntParts, ChunkParts, CodeParts;
    var pre := f.doubles + f.addresses + ChunkParts(f.funs) + IntParts(f.ints);
    MiddleOffset(pre, StringParts(f.strings), CodeParts(f.funs), k);
  }

  lemma DoubleOffset(f: Files, k: nat)
    requires AllNumbers(f.ints) && k <= |f.doubles|
    ensures PartAt(f, k) == HEADER_LENGTH + 8 * k
  {
    hide Cat, Offset, StringParts, IntParts, ChunkParts, CodeParts;
    var d: seq<seq<Byte>>, a: seq<seq<Byte>> := f.doubles, f.addresses;
    var post := a + ChunkParts(f.funs) + IntParts(f.ints) + StringParts(f.strings) + CodeParts(f.funs);
    assert BodyParts(f) == d + post;
    OffsetPrefix(d, post, k);
    OffsetEights(f.doubles, k);
  }

  lemma AddressOffset(f: Files, k: nat)
    requires AllNumbers(f.ints) && k <= |f.addresses|
    ensures PartAt(f, |f.doubles| + k) == HEADER_LENGTH + 8 * |f.doubles| + 8 * k
  {
    hide Cat, Offset, StringParts, IntParts, ChunkParts, CodeParts;
    var d: seq<seq<Byte>>, a: seq<seq<Byte>> := f.doubles, f.addresses;
    var post := ChunkParts(f.funs) + IntParts(f.ints) + StringParts(f.strings) + CodeParts(f.funs);
    assert BodyParts(f) == d + a + post;
    MiddleOffset(d, a, post, k);
    Pack.CatEights(f.doubles);
    OffsetEights(f.addresses, k);
  }

  lemma {:induction false} OffsetEights(p: seq<Bytes8>, k: nat)
    requires k <= |p|
    ensures Offset(p, k) == 8 * k
  {
    if k > 0 {
      OffsetEights(p[1..], k - 1);
    }
  }

  // ---- fields ----

  lemma {:induction false} ItemsAt(items: seq<ConstItem>, k: nat)
    requires k < |items|
    ensures ItemsBytes(items)[4 * k..4 * k + 4] == ItemBytes(items[k])
  {
    if k > 0 {
      ItemsAt(items[1..], k - 1);
      assert ItemsBytes(items)[4 * k..4 * k + 4] == ItemsBytes(items[1..])[4 * k - 4..4 * k];
    }
  }

  lemma {:induction false} DigitsAt(d: seq<Digit>, k: nat)
    requires k < |d|
    ensures DigitBytes(d)[2 * k..2 * k + 2] == LE16(d[k])
  {
    if k > 0 {
      DigitsAt(d[1..], k - 1);
      assert DigitBytes(d)[2 * k..2 * k + 2] == DigitBytes(d[1..])[2 * k - 2..2 * k];
    }
  }

  lemma Read16At(s: seq<Byte>, at: nat, n: nat)
    requires at + 2 <= |s| && s[at..at + 2] == LE16(n) && n < 65536
    ensures Read16(s, at) == n
  {
    ReadBack(n);
    assert s[at] == LE16(n)[0] && s[at + 1] == LE16(n)[1];
  }

  lemma ChunkFields(part: seq<Byte>, fun: FlatFun, i: nat)
    requires part == ChunkPart(fun, i)
    requires |fun.items| < 65536 && |fun.f.code| < 65536
    requires 0 < i ==> fun.f.arity < 65536 && fun.f.upvalueCount < 65536
    ensures Read16(part, 0) == |fun.items| && Read16(part, 2) == |fun.f.code|
    ensures Read16(part, 4) == if i == 0 then 0 else fun.f.arity
    ensures Read16(part, 6) == if i == 0 then 0 else fun.f.upvalueCount
    ensures part[8..] == ItemsBytes(fun.items)
  {
    hide LE16, Read16, ItemsBytes;
    Read16At(part, 0, |fun.items|);
    Read16At(part, 2, |fun.f.code|);
    Read16At(part, 4, if i == 0 then 0 else fun.f.arity);
    Read16At(part, 6, if i == 0 then 0 else fun.f.upvalueCount);
  }

  /** What is read at a place of the buffer is what is there in the part. */
  lemma SameFields(buffer: seq<Byte>, at: nat, part: seq<Byte>)
    requires at + |part| <= |buffer| && buffer[at..at + |part|] == part
    ensures forall o :: 0 <= o && o + 2 <= |part| ==> Read16(buffer, at + o) == Read16(part, o)
    ensures forall o :: 0 <= o && o + 3 <= |part| ==> Read24(buffer, at + o) == Read24(part, o)
    ensures forall o :: 0 <= o < |part| ==> buffer[at + o] == part[o]
  {
    forall o | 0 <= o < |part| ensures buffer[at + o] == part[o] {
      assert buffer[at + o] == buffer[at..at + |part|][o];
    }
  }

  lemma HeaderFields(buffer: seq<Byte>, f: Files)
    requires Fits(f) && Holds(buffer, f)
    ensures |buffer| >= HEADER_LENGTH && (buffer[..8] == Package(f)[..8] <==> buffer[..6] == PACKAGE_MAGIC && Read16(buffer, 6) == PACKAGE_VERSION)
    ensures Read16(buffer, 8) == |f.funs| && Read16(buffer, 10) == |f.strings| && Read16(buffer, 12) == |f.doubles|
    ensures Read16(buffer, 14) == |f.ints| && Read16(buffer, 18) == |f.addresses|
  {
    var h := Header(f, BodyLength(f));
    hide Cat, BodyParts, BodyLength;
    assert Package(f)[..HEADER_LENGTH] == h;
    assert buffer[8..][..16] == h[8..];
    forall o | 8 <= o < 24 ensures buffer[o] == h[o] {
      assert buffer[o] == buffer[8..][..16][o - 8];
    }
    assert h[..8] == PACKAGE_MAGIC + LE16(PACKAGE_VERSION);
    assert Package(f)[..8] == h[..8];
    VersionBytes(buffer);
    HeaderCounts(h, f);
  }

  /** The length in the header is that of the rest of the buffer, which the loader insists on. */
  lemma HeaderLength(buffer: seq<Byte>, f: Files)
    requires Fits(f) && Holds(buffer, f)
    ensures |buffer| >= HEADER_LENGTH && Read32(buffer, 20) == |buffer| - HEADER_LENGTH
  {
    hide Cat, BodyParts, LE32, Read32;
    Pack.CatSections(f);
    Pack.CatEights(f.doubles);
    Pack.CatEights(f.addresses);
    var n := BodyLength(f);
    var h := Header(f, n);
    assert n == |Cat(BodyParts(f))| < 4294967296;
    assert Package(f)[20..24] == h[20..24] == LE32(n);
    assert buffer[20..24] == buffer[8..][12..16] == Package(f)[8..][12..16] == Package(f)[20..24];
    Read32At(buffer, 20, n);
  }

  lemma Read32At(s: seq<Byte>, at: nat, n: nat)
    requires at + 4 <= |s| && s[at..at + 4] == LE32(n) && n < 4294967296
    ensures Read32(s, at) == n
  {
    ReadBack(n);
    assert s[at] == LE32(n)[0] && s[at + 1] == LE32(n)[1] && s[at + 2] == LE32(n)[2] && s[at + 3] == LE32(n)[3];
  }

  lemma VersionBytes(buffer: seq<Byte>)
    requires |buffer| >= 8
    ensures buffer[..8] == PACKAGE_MAGIC + LE16(PACKAGE_VERSION) <==>
            buffer[..6] == PACKAGE_MAGIC && Read16(buffer, 6) == PACKAGE_VERSION
  {
    assert buffer[..8] == buffer[..6] + [buffer[6], buffer[7]];
    assert LE16(PACKAGE_VERSION) == [0x05, 0x26];
  }

  lemma HeaderCounts(h: seq<Byte>, f: Files)
    requires Fits(f) && h == Header(f, BodyLength(f))
    ensures Read16(h, 8) == |f.funs| && Read16(h, 10) == |f.strings| && Read16(h, 12) == |f.doubles|
    ensures Read16(h, 14) == |f.ints| && Read16(h, 18) == |f.addresses|
  {
    hide Cat, BodyParts, BodyLength, LE16, Read16, LE32;
    Read16At(h, 8, |f.funs|);
    Read16At(h, 10, |f.strings|);
    Read16At(h, 12, |f.doubles|);
    Read16At(h, 14, |f.ints|);
    Read16At(h, 18, |f.addresses|);
  }

  // ---- the cursor ----

  /** `strlen`. */
  method StrLen(buffer: seq<Byte>, at: nat, ghost s: seq<Byte>) returns (n: nat)
    requires at + |s| < |buffer| && buffer[at..at + |s| + 1] == StringPart(s)
    ensures n <= |s| && buffer[at..at + n] == TillZero(StringPart(s))
  {
    ghost var part := StringPart(s);
    SameFields(buffer, at, part);
    n := 0;
    while buffer[at + n] != 0
      invariant n <= |s| && TillZero(part) == part[..n] + TillZero(part[n..])
      decreases |s| - n
    {
      assert buffer[at + n] == part[n] && part[n..][1..] == part[n + 1..];
      assert part[..n] + ([part[n]] + TillZero(part[n + 1..])) == part[..n + 1] + TillZero(part[n + 1..]);
      n := n + 1;
    }
    assert buffer[at + n] == part[n];
    assert TillZero(part) == part[..n] + [] == buffer[at..at + |part|][..n];
  }

  /** Where each chunk begins. */
  method ReadChunks(buffer: seq<Byte>, body: nat, numChunks: nat, ghost f: Files) returns (chunks: array<nat>, next: nat)
    requires Fits(f) && Holds(buffer, f) && numChunks == |f.funs| && body == PartAt(f, FirstChunk(f))
    ensures fresh(chunks) && chunks.Length == 256 && next == PartAt(f, FirstInt(f))
    ensures forall i :: 0 <= i < numChunks ==> chunks[i] == PartAt(f, FirstChunk(f) + i)
  {
    hide Holds, Cat, Offset, BodyParts, ChunkPart, PartAt, Read16, Read24;
    chunks := new nat[256];
    next := body;
    var i := 0;
    Parts(f);
    while i < numChunks
      invariant 0 <= i <= numChunks && next == PartAt(f, FirstChunk(f) + i)
      invariant forall k :: 0 <= k < i ==> chunks[k] == PartAt(f, FirstChunk(f) + k)
    {
      ChunkFound(buffer, f, i);
      chunks[i] := next;
      next := next + 8 + 4 * Read16(buffer, chunks[i]);
      i := i + 1;
    }
  }

  lemma ChunkFound(buffer: seq<Byte>, f: Files, i: nat)
    requires Fits(f) && Holds(buffer, f) && i < |f.funs|
    ensures FirstChunk(f) + i + 1 <= |BodyParts(f)|
    ensures var at := PartAt(f, FirstChunk(f) + i);
            var fun := f.funs[i];
            && at + 8 + 4 * |fun.items| == PartAt(f, FirstChunk(f) + i + 1) <= |buffer|
            && Read16(buffer, at) == |fun.items| && Read16(buffer, at + 2) == |fun.f.code|
            && Read16(buffer, at + 4) == (if i == 0 then 0 else fun.f.arity)
            && Read16(buffer, at + 6) == (if i == 0 then 0 else fun.f.upvalueCount)
            && buffer[at + 8..at + 8 + 4 * |fun.items|] == ItemsBytes(fun.items)
  {
    hide Holds, Cat, Offset, BodyParts, ChunkPart, PartAt, Read16, Read24, ItemsBytes;
    Parts(f);
    var k := FirstChunk(f) + i;
    var part := BodyParts(f)[k];
    PartFound(buffer, f, k);
    SameFields(buffer, PartAt(f, k), part);
    ChunkFields(part, f.funs[i], i);
    var at := PartAt(f, k);
    assert buffer[at + 8..at + |part|] == buffer[at..at + |part|][8..];
  }

  /** Past the integers. */
  method SkipInts(buffer: seq<Byte>, intFile: nat, numInts: nat, ghost f: Files) returns (next: nat)
    requires Fits(f) && Holds(buffer, f) && numInts == |f.ints| && intFile == PartAt(f, FirstInt(f))
    ensures next == PartAt(f, FirstString(f))
  {
    hide Holds, Cat, Offset, BodyParts, PartAt, IntPart;
    next := intFile;
    Parts(f);
    var i := 0;
    while i < numInts
      invariant 0 <= i <= numInts && next == PartAt(f, FirstInt(f) + i)
    {
      IntFound(buffer, f, i);
      next := next + 4 + 2 * buffer[next + 3] as nat;
      i := i + 1;
    }
  }

  lemma IntFound(buffer: seq<Byte>, f: Files, i: nat)
    requires Fits(f) && Holds(buffer, f) && i < |f.ints|
    ensures FirstInt(f) + i + 1 <= |BodyParts(f)|
    ensures var at := PartAt(f, FirstInt(f) + i);
            var d := |f.ints[i].digits|;
            && at + 4 + 2 * (d + d % 2) == PartAt(f, FirstInt(f) + i + 1) <= |buffer|
            && buffer[at] == (if f.ints[i].neg then 1 else 0) && buffer[at + 2] == d && buffer[at + 3] == d + d % 2
            && forall k :: 0 <= k < d ==> Read16(buffer, at + 4 + 2 * k) == f.ints[i].digits[k]
  {
    hide Holds, Cat, Offset, BodyParts, PartAt, Read16, Read24, IntPart;
    Parts(f);
    var k := FirstInt(f) + i;
    var n := f.ints[i];
    var part := BodyParts(f)[k];
    PartFound(buffer, f, k);
    SameFields(buffer, PartAt(f, k), part);
    IntFields(part, n);
    forall j | 0 <= j < |n.digits| ensures Read16(buffer, PartAt(f, k) + 4 + 2 * j) == n.digits[j] {
      assert Read16(buffer, PartAt(f, k) + (4 + 2 * j)) == Read16(part, 4 + 2 * j);
    }
  }

  lemma IntFields(part: seq<Byte>, n: Const)
    requires n.Number? && |n.digits| <= 254 && part == IntPart(n)
    ensures part[0] == (if n.neg then 1 else 0) && part[2] == |n.digits| && part[3] == |n.digits| + |n.digits| % 2
    ensures forall k :: 0 <= k < |n.digits| ==> Read16(part, 4 + 2 * k) == n.digits[k]
  {
    hide DigitBytes, Read16, LE16;
    assert part[4..4 + 2 * |n.digits|] == DigitBytes(n.digits);
    forall j | 0 <= j < |n.digits| ensures Read16(part, 4 + 2 * j) == n.digits[j] {
      DigitsAt(n.digits, j);
      assert part[4 + 2 * j..4 + 2 * j + 2] == DigitBytes(n.digits)[2 * j..2 * j + 2];
      Read16At(part, 4 + 2 * j, n.digits[j]);
    }
  }

  /** Past the strings. */
  method SkipStrings(buffer: seq<Byte>, stringFile: nat, numStrings: nat, ghost f: Files) returns (next: nat)
    requires Fits(f) && Holds(buffer, f) && numStrings == |f.strings| && stringFile == PartAt(f, FirstString(f))
    ensures next == PartAt(f, FirstCode(f))
  {
    hide Holds, Cat, Offset, BodyParts, PartAt, StringPart;
    next := stringFile;
    Parts(f);
    var i := 0;
    while i < numStrings
      invariant 0 <= i <= numStrings && next == PartAt(f, FirstString(f) + i)
    {
      StringFound(buffer, f, i);
      var n := StrLen(buffer, next, f.strings[i]);
      StringBackIff(f.strings[i]);
      next := next + n + 1;
      i := i + 1;
    }
  }

  lemma StringFound(buffer: seq<Byte>, f: Files, i: nat)
    requires Fits(f) && Holds(buffer, f) && i < |f.strings|
    ensures FirstString(f) + i + 1 <= |BodyParts(f)|
    ensures var at := PartAt(f, FirstString(f) + i);
            var s := f.strings[i];
            && at + |s| + 1 == PartAt(f, FirstString(f) + i + 1) <= |buffer|
            && buffer[at..at + |s| + 1] == StringPart(s) && 0 !in s
  {
    hide Holds, Cat, Offset, BodyParts, PartAt;
    Parts(f);
    PartFound(buffer, f, FirstString(f) + i);
  }

  // ---- putting the functions together ----

  /** What constant `c` is in memory; a function is the one with its index. */
  ghost predicate ConstantLoaded(functions: seq<ObjFunction>, item: ConstItem, c: Const, v: Value) {
    match c
    case Str(s) => v == StringVal(s)
    case Number(neg, digits) => v == IntVal(neg, digits)
    case Double(b) => v == DoubleVal(b)
    case Address(b) => v == AddressVal(b)
    case Function(_) => item.index < |functions| && v == FunctionVal(functions[item.index])
  }

  method ReadInt(buffer: seq<Byte>, at: nat, ghost n: Const) returns (v: Value)
    requires n.Number? && at + 4 + 2 * |n.digits| <= |buffer|
    requires buffer[at] == (if n.neg then 1 else 0) && buffer[at + 2] == |n.digits|
    requires forall k :: 0 <= k < |n.digits| ==> Read16(buffer, at + 4 + 2 * k) == n.digits[k]
    ensures v == IntVal(n.neg, n.digits)
  {
    var d: nat := buffer[at + 2];
    var digits: seq<Digit> := [];
    while |digits| < d
      invariant |digits| <= d && digits == n.digits[..|digits|]
    {
      digits := digits + [Read16(buffer, at + 4 + 2 * |digits|)];
    }
    v := IntVal(buffer[at] == 1, digits);
  }

  method ReadConstant(buffer: seq<Byte>, functions: seq<ObjFunction>, kind: Byte, index: nat, body: nat, addresses: nat,
                      intFile: nat, stringFile: nat, ghost f: Files, ghost item: ConstItem, ghost c: Const)
    returns (v: Value)
    requires Fits(f) && Holds(buffer, f) && Placed(f) && Stands(f, item, c, 1) && |functions| == |f.funs|
    requires body == HEADER_LENGTH && addresses == body + 8 * |f.doubles|
    requires intFile == PartAt(f, FirstInt(f)) && stringFile == PartAt(f, FirstString(f))
    requires kind == item.kind
    requires index == if kind == PACK_CONST_TYPE_S || kind == PACK_CONST_TYPE_I then item.offset else item.index
    requires item.kind == PACK_CONST_TYPE_S ==> item.offset == Offset(StringParts(f.strings), item.index)
    requires item.kind == PACK_CONST_TYPE_I ==> item.offset == Offset(IntParts(f.ints), item.index)
    ensures ConstantLoaded(functions, item, c, v)
  {
    hide Holds, Cat, Offset, BodyParts, PartAt, StringPart, Read16, Placed;
    if kind == PACK_CONST_TYPE_S {
      StringOffset(f, item.index);
      StringFound(buffer, f, item.index);
      var n := StrLen(buffer, stringFile + index, f.strings[item.index]);
      StringBackIff(c.chars);
      v := StringVal(buffer[stringFile + index..stringFile + index + n]);
    } else if kind == PACK_CONST_TYPE_I {
      IntOffset(f, item.index);
      IntFound(buffer, f, item.index);
      v := ReadInt(buffer, intFile + index, c);
    } else if kind == PACK_CONST_TYPE_D {
      DoubleOffset(f, index);
      DoubleFound(buffer, f, index);
      v := DoubleVal(buffer[body + 8 * index..body + 8 * index + 8]);
    } else if kind == PACK_CONST_TYPE_F {
      v := FunctionVal(functions[index]);
    } else {
      AddressOffset(f, index);
      AddressFound(buffer, f, index);
      v := AddressVal(buffer[addresses + 8 * index..addresses + 8 * index + 8]);
    }
  }

  lemma DoubleFound(buffer: seq<Byte>, f: Files, i: nat)
    requires Fits(f) && Holds(buffer, f) && i < |f.doubles|
    ensures var at := HEADER_LENGTH + 8 * i; at + 8 <= |buffer| && buffer[at..at + 8] == f.doubles[i]
  {
    hide Holds, Cat, Offset, BodyParts, PartAt;
    Parts(f);
    PartFound(buffer, f, i);
    DoubleOffset(f, i);
  }

  lemma AddressFound(buffer: seq<Byte>, f: Files, i: nat)
    requires Fits(f) && Holds(buffer, f) && i < |f.addresses|
    ensures var at := HEADER_LENGTH + 8 * |f.doubles| + 8 * i; at + 8 <= |buffer| && buffer[at..at + 8] == f.addresses[i]
  {
    hide Holds, Cat, Offset, BodyParts, PartAt;
    Parts(f);
    PartFound(buffer, f, |f.doubles| + i);
    AddressOffset(f, i);
    assert |f.addresses[i]| == 8;
  }

  /** Function `i` as it comes back; the script's arity and upvalue count are zero. */
  ghost predicate FunctionLoaded(functions: seq<ObjFunction>, f: Files, i: nat)
    requires i < |f.funs| == |functions|
    reads functions[i]
  {
    var o, g := functions[i], f.funs[i].f;
    && o.code == g.code && o.arity == (if i == 0 then 0 else g.arity)
    && o.upvalueCount == (if i == 0 then 0 else g.upvalueCount)
    && |o.constants| == |g.constants| == |f.funs[i].items|
    && forall k :: 0 <= k < |g.constants| ==> ConstantLoaded(functions, f.funs[i].items[k], g.constants[k], o.constants[k])
  }

  /** The new functions, none of them filled in yet. */
  method NewFunctions(n: nat) returns (functions: seq<ObjFunction>)
    ensures |functions| == n && forall i :: 0 <= i < n ==> fresh(functions[i]) && functions[i].constants == []
    ensures forall i, j :: 0 <= i < j < n ==> functions[i] != functions[j]
  {
    functions := [];
    while |functions| < n
      invariant |functions| <= n && forall i :: 0 <= i < |functions| ==> fresh(functions[i]) && functions[i].constants == []
      invariant forall i, j :: 0 <= i < j < |functions| ==> functions[i] != functions[j]
    {
      var fn := new ObjFunction();
      functions := functions + [fn];
    }
  }

  ghost predicate CodeLoaded(o: ObjFunction, fun: FlatFun, i: nat)
    reads o
  {
    && o.code == fun.f.code && o.arity == (if i == 0 then 0 else fun.f.arity)
    && o.upvalueCount == (if i == 0 then 0 else fun.f.upvalueCount)
  }

  /** The code of each function and what its chunk says of it. */
  method LoadCode(buffer: seq<Byte>, functions: seq<ObjFunction>, chunks: array<nat>, startOfCode: nat, ghost f: Files)
    requires Fits(f) && Holds(buffer, f) && |functions| == |f.funs| && chunks.Length == 256
    requires forall i :: 0 <= i < |functions| ==> chunks[i] == PartAt(f, FirstChunk(f) + i)
    requires startOfCode == PartAt(f, FirstCode(f))
    requires forall i, j :: 0 <= i < j < |functions| ==> functions[i] != functions[j]
    requires forall i :: 0 <= i < |functions| ==> functions[i].constants == []
    modifies functions
    ensures forall i :: 0 <= i < |functions| ==> CodeLoaded(functions[i], f.funs[i], i) && functions[i].constants == []
  {
    hide Holds, Cat, Offset, BodyParts, PartAt, Read16;
    Parts(f);
    var next := startOfCode;
    var i := 0;
    while i < |functions|
      invariant 0 <= i <= |functions| && next == PartAt(f, FirstCode(f) + i)
      invariant forall k :: 0 <= k < |functions| ==> functions[k].constants == []
      invariant forall k :: 0 <= k < i ==> CodeLoaded(functions[k], f.funs[k], k)
    {
      ChunkFound(buffer, f, i);
      PartFound(buffer, f, FirstCode(f) + i);
      var codeLength := Read16(buffer, chunks[i] + 2);
      functions[i].code := buffer[next..next + codeLength];
      functions[i].arity := Read16(buffer, chunks[i] + 4);
      functions[i].upvalueCount := Read16(buffer, chunks[i] + 6);
      next := next + codeLength;
      i := i + 1;
    }
  }

  /** The constants of one function. */
  method LoadConstants(buffer: seq<Byte>, functions: seq<ObjFunction>, i: nat, chunk: nat, body: nat, addresses: nat,
                       intFile: nat, stringFile: nat, ghost f: Files)
    requires Fits(f) && Holds(buffer, f) && Placed(f) && Complete(f) && i < |functions| == |f.funs|
    requires chunk == PartAt(f, FirstChunk(f) + i) && body == HEADER_LENGTH && addresses == body + 8 * |f.doubles|
    requires intFile == PartAt(f, FirstInt(f)) && stringFile == PartAt(f, FirstString(f))
    requires CodeLoaded(functions[i], f.funs[i], i) && functions[i].constants == []
    modifies functions[i]
    ensures FunctionLoaded(functions, f, i)
  {
    hide Holds, Cat, Offset, BodyParts, PartAt, Read16, Read24, Placed, ConstantLoaded, ItemsBytes, Complete, Stands, Fits;
    var o := functions[i];
    ChunkFound(buffer, f, i);
    IsComplete(f, i);
    var numConsts := Read16(buffer, chunk);
    var c := 0;
    while c < numConsts
      modifies o
      invariant 0 <= c <= numConsts == |f.funs[i].items| && CodeLoaded(o, f.funs[i], i) && |o.constants| == c
      invariant forall k :: 0 <= k < c ==> ConstantLoaded(functions, f.funs[i].items[k], f.funs[i].f.constants[k], o.constants[k])
    {
      ghost var item, g := f.funs[i].items[c], f.funs[i].f.constants[c];
      ItemFound(buffer, chunk, f, i, c);
      ItemPlaced(f, i, c);
      var kind := buffer[chunk + 8 + 4 * c];
      var index := Read24(buffer, chunk + 9 + 4 * c);
      var v := ReadConstant(buffer, functions, kind, index, body, addresses, intFile, stringFile, f, item, g);
      o.constants := o.constants + [v];
      c := c + 1;
    }
  }

  lemma IsComplete(f: Files, i: nat)
    requires Complete(f) && i < |f.funs|
    ensures |f.funs[i].items| == |f.funs[i].f.constants|
    ensures forall k :: 0 <= k < |f.funs[i].items| ==> Stands(f, f.funs[i].items[k], f.funs[i].f.constants[k], 1)
  {
    assert Represents(f, i, f.funs[i].f, 1);
  }

  /** The offsets that were assigned fit into the three bytes they are given. */
  lemma ItemPlaced(f: Files, i: nat, k: nat)
    requires Fits(f) && Placed(f) && i < |f.funs| && k < |f.funs[i].items| == |f.funs[i].f.constants|
    requires Stands(f, f.funs[i].items[k], f.funs[i].f.constants[k], 1)
    ensures var item := f.funs[i].items[k];
            && (item.kind == PACK_CONST_TYPE_S ==>
                  item.index < |f.strings| && item.offset == Offset(StringParts(f.strings), item.index) < 16777216)
            && (item.kind == PACK_CONST_TYPE_I ==>
                  item.index < |f.ints| && item.offset == Offset(IntParts(f.ints), item.index) < 16777216)
            && item.index < 65536
  {
    hide Cat, Offset;
    var item := f.funs[i].items[k];
    if item.kind == PACK_CONST_TYPE_S {
      assert PlacedAt(f.funs, PACK_CONST_TYPE_S, item.index, Offset(StringParts(f.strings), item.index));
    } else if item.kind == PACK_CONST_TYPE_I {
      assert PlacedAt(f.funs, PACK_CONST_TYPE_I, item.index, Offset(IntParts(f.ints), item.index));
    }
  }

  lemma ItemFound(buffer: seq<Byte>, chunk: nat, f: Files, i: nat, k: nat)
    requires Fits(f) && Holds(buffer, f) && Placed(f) && Complete(f) && i < |f.funs| && k < |f.funs[i].items|
    requires chunk == PartAt(f, FirstChunk(f) + i)
    ensures chunk + 12 + 4 * k <= |buffer|
    ensures var item := f.funs[i].items[k];
            && buffer[chunk + 8 + 4 * k] == item.kind
            && Read24(buffer, chunk + 9 + 4 * k) ==
                 if item.kind == PACK_CONST_TYPE_S || item.kind == PACK_CONST_TYPE_I then item.offset else item.index
  {
    hide Holds, Cat, Offset, BodyParts, PartAt, Read16, Read24, Placed, ItemsBytes, LE24, Complete, Stands, Fits;
    ChunkFound(buffer, f, i);
    IsComplete(f, i);
    ItemPlaced(f, i, k);
    var items := f.funs[i].items;
    var item := items[k];
    ItemsAt(items, k);
    var at := chunk + 8 + 4 * k;
    var n := if item.kind == PACK_CONST_TYPE_S || item.kind == PACK_CONST_TYPE_I then item.offset else item.index;
    assert buffer[at..at + 4] == buffer[chunk + 8..chunk + 8 + 4 * |items|][4 * k..4 * k + 4] == ItemBytes(item);
    assert buffer[at] == buffer[at..at + 4][0];
    assert buffer[at + 1..at + 4] == buffer[at..at + 4][1..] == LE24(n);
    Read24At(buffer, at + 1, n);
  }

  lemma Read24At(s: seq<Byte>, at: nat, n: nat)
    requires at + 3 <= |s| && s[at..at + 3] == LE24(n) && n < 16777216
    ensures Read24(s, at) == n
  {
    ReadBack(n);
    assert s[at] == LE24(n)[0] && s[at + 1] == LE24(n)[1] && s[at + 2] == LE24(n)[2];
  }

  // ---- the round trip ----

  /** The object is the function, constants and all. */
  ghost predicate Matches(o: ObjFunction, g: Fun, all: set<ObjFunction>)
    reads all
    decreases g, 1
  {
    && o in all && o.code == g.code && o.arity == g.arity && o.upvalueCount == g.upvalueCount
    && |o.constants| == |g.constants|
    && forall k :: 0 <= k < |g.constants| ==> SameConstant(o.constants[k], g.constants[k], all)
  }

  ghost predicate SameConstant(v: Value, c: Const, all: set<ObjFunction>)
    reads all
    decreases c, 0
  {
    match c
    case Str(s) => v == StringVal(s)
    case Number(neg, digits) => v == IntVal(neg, digits)
    case Double(b) => v == DoubleVal(b)
    case Address(b) => v == AddressVal(b)
    case Function(g) => v.FunctionVal? && Matches(v.f, g, all)
  }

  /** The script's own arity and upvalue count do not matter and are not kept. */
  function AsScript(g: Fun): Fun {
    g.(arity := 0, upvalueCount := 0)
  }

  lemma {:induction false} LoadedMatches(functions: seq<ObjFunction>, f: Files, i: nat, g: Fun, all: set<ObjFunction>)
    requires |functions| == |f.funs| && forall j :: 0 <= j < |functions| ==> functions[j] in all && FunctionLoaded(functions, f, j)
    requires Represents(f, i, g, 1)
    ensures Matches(functions[i], if i == 0 then AsScript(g) else g, all)
    decreases g
  {
    var o := functions[i];
    forall k | 0 <= k < |g.constants| ensures SameConstant(o.constants[k], g.constants[k], all) {
      var item := f.funs[i].items[k];
      assert Stands(f, item, g.constants[k], 1) && ConstantLoaded(functions, item, g.constants[k], o.constants[k]);
      if g.constants[k].Function? {
        LoadedMatches(functions, f, item.index, g.constants[k].f, all);
      }
    }
  }

  /** Loads a package, or nothing when the magic number or the version is not the right one. */
  method LoadPackageFromBuffer(buffer: seq<Byte>, ghost f: Files) returns (r: ObjFunction?, ghost all: set<ObjFunction>)
    requires Fits(f) && Complete(f) && Placed(f) && Holds(buffer, f)
    ensures r != null <==> buffer[..8] == Package(f)[..8]
    ensures r != null ==> fresh(all) && Matches(r, AsScript(f.funs[0].f), all)
  {
    hide Holds, Cat, Offset, BodyParts, PartAt, Read16, Placed, Package, Represents, FunctionLoaded, CodeLoaded;
    HeaderFields(buffer, f);
    var ok := buffer[..6] == PACKAGE_MAGIC;
    if Read16(buffer, 6) != PACKAGE_VERSION {
      return null, {};
    }
    HeaderLength(buffer, f);
    assert Read32(buffer, 20) == |buffer| - HEADER_LENGTH;
    var body := HEADER_LENGTH;
    var addresses := body + 8 * Read16(buffer, 12);
    var next := addresses + 8 * Read16(buffer, 18);
    AddressOffset(f, |f.addresses|);
    var chunks, intFile := ReadChunks(buffer, next, Read16(buffer, 8), f);
    var stringFile := SkipInts(buffer, intFile, Read16(buffer, 14), f);
    next := SkipStrings(buffer, stringFile, Read16(buffer, 10), f);
    var functions := NewFunctions(Read16(buffer, 8));
    LoadCode(buffer, functions, chunks, next, f);
    var i := 0;
    while i < |functions|
      modifies functions
      invariant 0 <= i <= |functions| && forall k :: 0 <= k < i ==> FunctionLoaded(functions, f, k)
      invariant forall k :: i <= k < |functions| ==> CodeLoaded(functions[k], f.funs[k], k) && functions[k].constants == []
    {
      LoadConstants(buffer, functions, i, chunks[i], body, addresses, intFile, stringFile, f);
      i := i + 1;
    }
    all := set o | o in functions;
    assert Represents(f, 0, f.funs[0].f, 1);
    LoadedMatches(functions, f, 0, f.funs[0].f, all);
    r := if ok then functions[0] else null;
  }

  /** What was packed is what is loaded. */
  method PackAndLoad(script: Fun) returns (r: ObjFunction?, files: Files, ghost all: set<ObjFunction>)
    ensures Complete(files) && files.funs[0].f == script && Pack.DistinctStrings(files.strings)
    ensures Fits(files) ==> r != null && Matches(r, AsScript(script), all)
  {
    hide Package, Placed, Complete;
    var buffer;
    buffer, files := Pack.PackScript(script);
    r, all := null, {};
    if Fits(files) {
      r, all := LoadPackageFromBuffer(buffer, files);
    }
  }
}
