/** The layout of a package of compiled code (cyarg/pack_format.h): what the writer and the loader
    compute separately and have to agree on. */
module PackFormat {
  type Byte = n: nat | n < 256
  type Digit = n: nat | n < 65536
  type Bytes8 = s: seq<Byte> | |s| == 8 witness [0, 0, 0, 0, 0, 0, 0, 0]

  /** A compiled function and its constants, functions among them. */
  datatype Fun = Fun(code: seq<Byte>, arity: nat, upvalueCount: nat, constants: seq<Const>)

  datatype Const =
    | Str(chars: seq<Byte>)
    | Number(neg: bool, digits: seq<Digit>)
    | Double(bytes: Bytes8)
    | Function(f: Fun)
    | Address(bytes: Bytes8)

  const PACK_CONST_TYPE_S: Byte := 0
  const PACK_CONST_TYPE_I: Byte := 1
  const PACK_CONST_TYPE_D: Byte := 2
  const PACK_CONST_TYPE_F: Byte := 3
  const PACK_CONST_TYPE_A: Byte := 4

  /** `index` is the position in the file of its type, `offset` the bytes before it there. */
  datatype ConstItem = ConstItem(kind: Byte, index: nat, offset: nat)

  datatype FlatFun = FlatFun(f: Fun, items: seq<ConstItem>)

  datatype Files = Files(strings: seq<seq<Byte>>, doubles: seq<Bytes8>, ints: seq<Const>, funs: seq<FlatFun>,
                         addresses: seq<Bytes8>)

  // ---- bytes ----

  function Low(n: nat): Byte {
    n % 256
  }

  /** Little-endian integers of 2, 3 and 4 bytes; what does not fit is cut off. */
  function LE16(n: nat): (s: seq<Byte>)
    ensures |s| == 2
  {
    [Low(n), Low(n / 256)]
  }

  function LE24(n: nat): (s: seq<Byte>)
    ensures |s| == 3
  {
    [Low(n), Low(n / 256), Low(n / 65536)]
  }

  function LE32(n: nat): (s: seq<Byte>)
    ensures |s| == 4
  {
    [Low(n), Low(n / 256), Low(n / 65536), Low(n / 16777216)]
  }

  function Read16(s: seq<Byte>, i: nat): (n: nat)
    requires i + 2 <= |s|
  {
    s[i] as nat + 256 * s[i + 1] as nat
  }

  function Read24(s: seq<Byte>, i: nat): (n: nat)
    requires i + 3 <= |s|
  {
    s[i] as nat + 256 * s[i + 1] as nat + 65536 * s[i + 2] as nat
  }

  function Read32(s: seq<Byte>, i: nat): (n: nat)
    requires i + 4 <= |s|
  {
    s[i] as nat + 256 * s[i + 1] as nat + 65536 * s[i + 2] as nat + 16777216 * s[i + 3] as nat
  }

  lemma ReadBack(n: nat)
    ensures n < 65536 <==> Read16(LE16(n), 0) == n
    ensures n < 16777216 <==> Read24(LE24(n), 0) == n
    ensures n < 4294967296 <==> Read32(LE32(n), 0) == n
  {
    assert n / 65536 == n / 256 / 256 && n / 16777216 == n / 65536 / 256;
  }

  // ---- parts laid one after the other ----

  function Cat(parts: seq<seq<Byte>>): (s: seq<Byte>) {
    if parts == [] then [] else parts[0] + Cat(parts[1..])
  }

  /** Where part `k` begins. */
  function Offset(parts: seq<seq<Byte>>, k: nat): (n: nat)
    requires k <= |parts|
  {
    if k == 0 then 0 else |parts[0]| + Offset(parts[1..], k - 1)
  }

  lemma {:induction false} CatLength(parts: seq<seq<Byte>>)
    ensures |Cat(parts)| == Offset(parts, |parts|)
  {
    if parts != [] {
      CatLength(parts[1..]);
    }
  }

  lemma {:induction false} OffsetNext(parts: seq<seq<Byte>>, k: nat)
    requires k < |parts|
    ensures Offset(parts, k + 1) == Offset(parts, k) + |parts[k]|
  {
    if k > 0 {
      OffsetNext(parts[1..], k - 1);
    }
  }

  /** Every part is found at its offset. */
  lemma {:induction false} CatAt(parts: seq<seq<Byte>>, k: nat)
    requires k < |parts|
    ensures Offset(parts, k) + |parts[k]| <= |Cat(parts)|
    ensures Cat(parts)[Offset(parts, k)..Offset(parts, k) + |parts[k]|] == parts[k]
  {
    if k > 0 {
      CatAt(parts[1..], k - 1);
      var o := Offset(parts[1..], k - 1);
      assert Cat(parts)[|parts[0]| + o..|parts[0]| + o + |parts[k]|] == Cat(parts[1..])[o..o + |parts[k]|];
    }
  }

  lemma {:induction false} CatAppend(a: seq<seq<Byte>>, b: seq<seq<Byte>>)
    ensures Cat(a + b) == Cat(a) + Cat(b)
    ensures Offset(a + b, |a|) == |Cat(a)|
  {
    if a == [] {
      assert a + b == b;
    } else {
      assert (a + b)[1..] == a[1..] + b;
      CatAppend(a[1..], b);
    }
  }

  lemma {:induction false} OffsetAppend(a: seq<seq<Byte>>, b: seq<seq<Byte>>, k: nat)
    requires k <= |b|
    ensures Offset(a + b, |a| + k) == |Cat(a)| + Offset(b, k)
  {
    if a == [] {
      assert a + b == b;
    } else {
      assert (a + b)[1..] == a[1..] + b;
      OffsetAppend(a[1..], b, k);
    }
  }

  lemma {:induction false} CatNext(parts: seq<seq<Byte>>, k: nat)
    requires k < |parts|
    ensures Cat(parts[..k + 1]) == Cat(parts[..k]) + parts[k]
  {
    assert parts[..k + 1] == parts[..k] + [parts[k]];
    CatAppend(parts[..k], [parts[k]]);
    assert Cat([parts[k]]) == parts[k] + Cat([]);
  }

  // ---- the sections ----

  /** A string with the zero that ends it. */
  function StringPart(s: seq<Byte>): seq<Byte> {
    s + [0]
  }

  function StringParts(strings: seq<seq<Byte>>): (p: seq<seq<Byte>>)
    ensures |p| == |strings| && forall i :: 0 <= i < |p| ==> p[i] == StringPart(strings[i])
  {
    seq(|strings|, i requires 0 <= i < |strings| => StringPart(strings[i]))
  }

  /** What a reader finds that stops at the first zero. */
  function TillZero(s: seq<Byte>): (t: seq<Byte>)
    ensures t <= s && 0 !in t
  {
    if s == [] || s[0] == 0 then [] else [s[0]] + TillZero(s[1..])
  }

  /** A string comes back whole if and only if it holds no zero, and otherwise shorter. */
  lemma {:induction false} StringBackIff(s: seq<Byte>)
    ensures TillZero(StringPart(s)) == s <==> 0 !in s
    ensures 0 in s ==> |TillZero(StringPart(s))| < |s|
  {
    if s != [] {
      StringBackIff(s[1..]);
      assert StringPart(s)[1..] == StringPart(s[1..]);
      assert s == [s[0]] + s[1..];
    }
  }

  function DigitBytes(d: seq<Digit>): (s: seq<Byte>)
    ensures |s| == 2 * |d|
  {
    if d == [] then [] else LE16(d[0]) + DigitBytes(d[1..])
  }

  /** An integer as it is held in memory: sign, used digits, room, and the digits up to an even
      number of them. */
  function IntPart(n: Const): (s: seq<Byte>)
    requires n.Number?
    ensures |s| == 4 + 2 * (|n.digits| + |n.digits| % 2)
  {
    var d := |n.digits|;
    [if n.neg then 1 else 0, 0, Low(d), Low(d + d % 2)] + DigitBytes(n.digits) + if d % 2 == 0 then [] else [0, 0]
  }

  predicate AllNumbers(ints: seq<Const>) {
    forall i :: 0 <= i < |ints| ==> ints[i].Number?
  }

  function IntParts(ints: seq<Const>): (p: seq<seq<Byte>>)
    requires AllNumbers(ints)
    ensures |p| == |ints| && forall i :: 0 <= i < |p| ==> p[i] == IntPart(ints[i])
  {
    seq(|ints|, i requires 0 <= i < |ints| => IntPart(ints[i]))
  }

  /** Strings and integers are found by offset, the others by index. */
  function ItemBytes(c: ConstItem): (s: seq<Byte>)
    ensures |s| == 4
  {
    [c.kind] + LE24(if c.kind == PACK_CONST_TYPE_S || c.kind == PACK_CONST_TYPE_I then c.offset else c.index)
  }

  function ItemsBytes(items: seq<ConstItem>): (s: seq<Byte>)
    ensures |s| == 4 * |items|
  {
    if items == [] then [] else ItemBytes(items[0]) + ItemsBytes(items[1..])
  }

  /** The script's own arity and upvalue count are written as zero. */
  function ChunkPart(fun: FlatFun, i: nat): (s: seq<Byte>)
    ensures |s| == 8 + 4 * |fun.items|
  {
    LE16(|fun.items|) + LE16(|fun.f.code|) + LE16(if i == 0 then 0 else fun.f.arity)
    + LE16(if i == 0 then 0 else fun.f.upvalueCount) + ItemsBytes(fun.items)
  }

  function ChunkParts(funs: seq<FlatFun>): (p: seq<seq<Byte>>)
    ensures |p| == |funs| && forall i :: 0 <= i < |p| ==> p[i] == ChunkPart(funs[i], i)
  {
    seq(|funs|, i requires 0 <= i < |funs| => ChunkPart(funs[i], i))
  }

  function CodeParts(funs: seq<FlatFun>): (p: seq<seq<Byte>>)
    ensures |p| == |funs| && forall i :: 0 <= i < |p| ==> p[i] == funs[i].f.code
  {
    seq(|funs|, i requires 0 <= i < |funs| => funs[i].f.code)
  }

  const PACKAGE_MAGIC: seq<Byte> := [0x79, 0x0a, 0x72, 0x67, 0xff, 0x42]
  const PACKAGE_VERSION := 0x2605
  const HEADER_LENGTH := 24

  function Header(f: Files, bodyLength: nat): (s: seq<Byte>)
    ensures |s| == HEADER_LENGTH
  {
    PACKAGE_MAGIC + LE16(PACKAGE_VERSION) + LE16(|f.funs|) + LE16(|f.strings|) + LE16(|f.doubles|) + LE16(|f.ints|)
    + LE16(0) + LE16(|f.addresses|) + LE32(bodyLength)
  }

  /** All parts of the body, in order. */
  function BodyParts(f: Files): (p: seq<seq<Byte>>)
    requires AllNumbers(f.ints)
  {
    f.doubles + f.addresses + ChunkParts(f.funs) + IntParts(f.ints) + StringParts(f.strings) + CodeParts(f.funs)
  }

  /** The length of the body as it is computed for the header, from counts of two bytes. */
  function BodyLength(f: Files): nat
    requires AllNumbers(f.ints)
  {
    |f.doubles| % 65536 * 8 + |f.addresses| % 65536 * 8 + |Cat(ChunkParts(f.funs))| + |Cat(IntParts(f.ints))|
    + |Cat(StringParts(f.strings))| + |Cat(CodeParts(f.funs))|
  }

  function Package(f: Files): seq<Byte>
    requires AllNumbers(f.ints)
  {
    Header(f, BodyLength(f)) + Cat(BodyParts(f))
  }

  /** How every package begins.  The comment in the format's description has 00 as the fifth byte, with
      which the loader refuses it. */
  lemma PackageBegins(f: Files)
    requires AllNumbers(f.ints)
    ensures |Package(f)| >= 8 && Package(f)[..8] == [0x79, 0x0a, 0x72, 0x67, 0xff, 0x42, 0x05, 0x26]
  {
    hide Cat, BodyParts, BodyLength;
    var h := Header(f, BodyLength(f));
    assert LE16(PACKAGE_VERSION) == [0x05, 0x26];
    assert h[..8] == PACKAGE_MAGIC + LE16(PACKAGE_VERSION);
    assert Package(f)[..8] == h[..8];
  }

  // ---- what the files say ----

  /** A constant stands for what is in the file of its type; functions come after `lo`, which
      keeps apart what belongs to different functions. */
  ghost predicate Stands(f: Files, item: ConstItem, c: Const, lo: nat)
    decreases c, 0
  {
    match c
    case Str(s) => item.kind == PACK_CONST_TYPE_S && item.index < |f.strings| && f.strings[item.index] == s
    case Number(_, _) => item.kind == PACK_CONST_TYPE_I && item.index < |f.ints| && f.ints[item.index] == c
    case Double(b) => item.kind == PACK_CONST_TYPE_D && item.index < |f.doubles| && f.doubles[item.index] == b
    case Address(b) => item.kind == PACK_CONST_TYPE_A && item.index < |f.addresses| && f.addresses[item.index] == b
    case Function(g) => item.kind == PACK_CONST_TYPE_F && lo <= item.index && Represents(f, item.index, g, lo)
  }

  /** Function `i` of the files is `g`, constants and all. */
  ghost predicate Represents(f: Files, i: nat, g: Fun, lo: nat)
    decreases g, 1
  {
    && i < |f.funs| && f.funs[i].f == g && |f.funs[i].items| == |g.constants|
    && forall k :: 0 <= k < |g.constants| ==> Stands(f, f.funs[i].items[k], g.constants[k], lo)
  }

  /** Every function of the files has its constants in the files; the script comes first. */
  ghost predicate Complete(f: Files) {
    |f.funs| > 0 && forall j :: 0 <= j < |f.funs| ==> Represents(f, j, f.funs[j].f, 1)
  }

  /** Every constant of this type and index has this offset. */
  ghost predicate PlacedAt(funs: seq<FlatFun>, kind: Byte, index: nat, offset: nat) {
    forall f, k :: 0 <= f < |funs| && 0 <= k < |funs[f].items| && funs[f].items[k].kind == kind && funs[f].items[k].index == index ==>
      funs[f].items[k].offset == offset
  }

  ghost predicate Placed(f: Files)
    requires AllNumbers(f.ints)
  {
    && (forall k :: 0 <= k < |f.strings| ==> PlacedAt(f.funs, PACK_CONST_TYPE_S, k, Offset(StringParts(f.strings), k)))
    && (forall k :: 0 <= k < |f.ints| ==> PlacedAt(f.funs, PACK_CONST_TYPE_I, k, Offset(IntParts(f.ints), k)))
  }
}
