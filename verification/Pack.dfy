/** Writing a package (cyarg/pack.c): the tree of functions is flattened into one file for each type
    of constant, offsets are assigned, and the sections are written in order. */
module Pack {
  import opened PackFormat

  ghost predicate DistinctStrings(s: seq<seq<Byte>>) {
    forall i, j :: 0 <= i < j < |s| ==> s[i] != s[j]
  }

  /** `b` has everything of `a`, but for what is said about function `i`. */
  ghost predicate Changed(a: Files, b: Files, i: nat) {
    && a.strings <= b.strings && a.doubles <= b.doubles && a.ints <= b.ints && a.addresses <= b.addresses
    && |a.funs| <= |b.funs| && forall k :: 0 <= k < |a.funs| && k != i ==> b.funs[k] == a.funs[k]
  }

  lemma {:induction false} StillRepresents(a: Files, b: Files, i: nat, j: nat, g: Fun, lo: nat)
    requires Represents(a, j, g, lo) && Changed(a, b, i) && i != j && i < lo
    ensures Represents(b, j, g, lo)
    decreases g
  {
    forall k | 0 <= k < |g.constants| ensures Stands(b, b.funs[j].items[k], g.constants[k], lo) {
      assert Stands(a, a.funs[j].items[k], g.constants[k], lo);
      if g.constants[k].Function? {
        StillRepresents(a, b, i, a.funs[j].items[k].index, g.constants[k].f, lo);
      }
    }
  }

  lemma {:induction false} RepresentsLower(a: Files, j: nat, g: Fun, lo: nat, lo': nat)
    requires Represents(a, j, g, lo) && lo' <= lo
    ensures Represents(a, j, g, lo')
    decreases g
  {
    forall k | 0 <= k < |g.constants| ensures Stands(a, a.funs[j].items[k], g.constants[k], lo') {
      assert Stands(a, a.funs[j].items[k], g.constants[k], lo);
      if g.constants[k].Function? {
        RepresentsLower(a, a.funs[j].items[k].index, g.constants[k].f, lo, lo');
      }
    }
  }

  /** A constant whose function, if it is one, is listed but not yet flattened. */
  ghost predicate Listed(f: Files, item: ConstItem, c: Const, lo: nat) {
    match c
    case Function(g) => item.kind == PACK_CONST_TYPE_F && lo <= item.index < |f.funs| && f.funs[item.index].f == g
    case _ => Stands(f, item, c, lo)
  }

  // ---- how much there is ----

  /** How many entries of each type, and which strings. */
  datatype Tally = Tally(ints: nat, doubles: nat, addresses: nat, funs: nat, strings: set<seq<Byte>>)

  const NONE := Tally(0, 0, 0, 0, {})

  function Plus(a: Tally, b: Tally): Tally {
    Tally(a.ints + b.ints, a.doubles + b.doubles, a.addresses + b.addresses, a.funs + b.funs, a.strings + b.strings)
  }

  function OneConst(c: Const): Tally {
    match c
    case Str(s) => Tally(0, 0, 0, 0, {s})
    case Number(_, _) => Tally(1, 0, 0, 0, {})
    case Double(_) => Tally(0, 1, 0, 0, {})
    case Address(_) => Tally(0, 0, 1, 0, {})
    case Function(_) => Tally(0, 0, 0, 1, {})
  }

  /** These constants, without what is in the functions among them. */
  function Direct(cs: seq<Const>): Tally {
    if cs == [] then NONE else Plus(Direct(cs[..|cs| - 1]), OneConst(cs[|cs| - 1]))
  }

  /** A function's constants and those of all functions nested in it. */
  function Whole(g: Fun): Tally
    decreases g, |g.constants| + 1
  {
    Plus(Direct(g.constants), Nested(g, |g.constants|))
  }

  function Nested(g: Fun, n: nat): Tally
    requires n <= |g.constants|
    decreases g, n
  {
    if n == 0 then NONE
    else
      var c := g.constants[n - 1];
      Plus(Nested(g, n - 1), if c.Function? then Whole(c.f) else NONE)
  }

  /** The functions among the constants, in order. */
  function FunctionsAmong(cs: seq<Const>): seq<Fun> {
    if cs == [] then []
    else FunctionsAmong(cs[..|cs| - 1]) + if cs[|cs| - 1].Function? then [cs[|cs| - 1].f] else []
  }

  ghost function WholeOf(fs: seq<Fun>): Tally {
    if fs == [] then NONE else Plus(WholeOf(fs[..|fs| - 1]), Whole(fs[|fs| - 1]))
  }

  lemma {:induction false} NestedIsWholeOf(g: Fun, n: nat)
    requires n <= |g.constants|
    ensures Nested(g, n) == WholeOf(FunctionsAmong(g.constants[..n]))
    decreases n
  {
    if n > 0 {
      var cs := g.constants[..n];
      assert cs[..n - 1] == g.constants[..n - 1];
      NestedIsWholeOf(g, n - 1);
      var fs := FunctionsAmong(cs[..n - 1]);
      if cs[n - 1].Function? {
        assert (fs + [cs[n - 1].f])[..|fs|] == fs;
      } else {
        assert fs + [] == fs;
      }
    }
  }

  ghost function InFiles(f: Files): Tally {
    Tally(|f.ints|, |f.doubles|, |f.addresses|, |f.funs|, set s | s in f.strings)
  }

  /** The functions of these entries. */
  ghost function FunsOf(funs: seq<FlatFun>): seq<Fun> {
    seq(|funs|, i requires 0 <= i < |funs| => funs[i].f)
  }

  /** Exactly these constants have been added. */
  ghost predicate Tallied(a: Files, b: Files, cs: seq<Const>) {
    && InFiles(b) == Plus(InFiles(a), Direct(cs))
    && |a.funs| <= |b.funs| && FunsOf(b.funs[|a.funs|..]) == FunctionsAmong(cs)
  }

  lemma TalliedNothing(a: Files)
    ensures Tallied(a, a, [])
  {
    var none: set<seq<Byte>> := {};
    assert InFiles(a).strings + none == InFiles(a).strings;
  }

  lemma TalliedNext(a: Files, b: Files, c: Files, cs: seq<Const>, k: nat)
    requires k < |cs| && Tallied(a, b, cs[..k]) && InFiles(c) == Plus(InFiles(b), OneConst(cs[k]))
    requires c.funs == b.funs + if cs[k].Function? then [FlatFun(cs[k].f, [])] else []
    ensures Tallied(a, c, cs[..k + 1])
  {
    hide InFiles, OneConst;
    assert cs[..k + 1][..k] == cs[..k];
    var s, x, y := InFiles(a).strings, Direct(cs[..k]).strings, OneConst(cs[k]).strings;
    assert (s + x) + y == s + (x + y);
    var added := if cs[k].Function? then [FlatFun(cs[k].f, [])] else [];
    assert c.funs[|a.funs|..] == b.funs[|a.funs|..] + added;
    assert FunsOf(c.funs[|a.funs|..]) == FunsOf(b.funs[|a.funs|..]) + FunsOf(added);
  }

  lemma TalliedStill(a: Files, b: Files, c: Files, i: nat, cs: seq<Const>)
    requires Tallied(a, b, cs) && i < |a.funs| && |c.funs| == |b.funs| && c == b.(funs := b.funs[i := c.funs[i]])
    ensures Tallied(a, c, cs)
  {
    assert c.funs[|a.funs|..] == b.funs[|a.funs|..];
  }

  lemma {:induction false} AmongConstants(cs: seq<Const>, j: nat)
    requires j < |FunctionsAmong(cs)|
    ensures Function(FunctionsAmong(cs)[j]) in cs
  {
    var before := FunctionsAmong(cs[..|cs| - 1]);
    if j < |before| {
      AmongConstants(cs[..|cs| - 1], j);
    }
  }

  /** Function `i`, listed by its own function, and its tally once it is flattened. */
  lemma SubListed(o: Files, l: Files, v: Files, g: Fun, chunkIndex: nat, start: nat, end: nat, i: nat)
    requires Tallied(o, l, g.constants) && Flattening(o, l, v, chunkIndex, start, end, i) && i < end
    ensures i - start < |FunctionsAmong(g.constants)| == end - start
    ensures v.funs[i].f == FunctionsAmong(g.constants)[i - start] && Function(v.funs[i].f) in g.constants
  {
    var fs := FunctionsAmong(g.constants);
    assert |FunsOf(l.funs[start..])| == end - start;
    assert FunsOf(l.funs[start..])[i - start] == l.funs[i].f;
    AmongConstants(g.constants, i - start);
  }

  lemma SubTallied(l: Files, a: Files, b: Files, fs: seq<Fun>, k: nat)
    requires k < |fs| && InFiles(a) == Plus(InFiles(l), WholeOf(fs[..k])) && InFiles(b) == Plus(InFiles(a), Whole(fs[k]))
    ensures InFiles(b) == Plus(InFiles(l), WholeOf(fs[..k + 1]))
  {
    hide InFiles, Whole, WholeOf;
    WholeOfNext(fs, k);
    var s, x, y := InFiles(l).strings, WholeOf(fs[..k]).strings, Whole(fs[k]).strings;
    assert (s + x) + y == s + (x + y);
  }

  lemma FunctionsListed(o: Files, l: Files, g: Fun)
    requires Tallied(o, l, g.constants)
    ensures |FunctionsAmong(g.constants)| == |l.funs| - |o.funs|
  {
    assert |FunsOf(l.funs[|o.funs|..])| == |l.funs| - |o.funs|;
  }

  lemma NoneTallied(l: Files, fs: seq<Fun>)
    ensures InFiles(l) == Plus(InFiles(l), WholeOf(fs[..0]))
  {
    var none: set<seq<Byte>> := {};
    assert InFiles(l).strings + none == InFiles(l).strings;
  }

  lemma WholeTallied(o: Files, l: Files, v: Files, g: Fun)
    requires Tallied(o, l, g.constants) && InFiles(v) == Plus(InFiles(l), WholeOf(FunctionsAmong(g.constants)))
    ensures InFiles(v) == Plus(InFiles(o), Whole(g))
  {
    hide InFiles, WholeOf, Direct, Nested;
    NestedIsWholeOf(g, |g.constants|);
    assert g.constants[..|g.constants|] == g.constants;
    var s, x, y := InFiles(o).strings, Direct(g.constants).strings, Nested(g, |g.constants|).strings;
    assert (s + x) + y == s + (x + y);
  }

  lemma WholeOfNext(fs: seq<Fun>, k: nat)
    requires k < |fs|
    ensures WholeOf(fs[..k + 1]) == Plus(WholeOf(fs[..k]), Whole(fs[k]))
  {
    assert fs[..k + 1][..k] == fs[..k];
  }

  ghost function CodeLength(funs: seq<FlatFun>): nat {
    if funs == [] then 0 else CodeLength(funs[..|funs| - 1]) + |funs[|funs| - 1].f.code|
  }

  lemma {:induction false} CodeLengthAppend(a: seq<FlatFun>, b: seq<FlatFun>)
    ensures CodeLength(a + b) == CodeLength(a) + CodeLength(b)
  {
    if b == [] {
      assert a + b == a;
    } else {
      assert (a + b)[..|a + b| - 1] == a + b[..|b| - 1];
      CodeLengthAppend(a, b[..|b| - 1]);
    }
  }

  lemma {:induction false} CodeLengthSame(a: seq<FlatFun>, b: seq<FlatFun>)
    requires |a| == |b| && forall k :: 0 <= k < |a| ==> a[k].f == b[k].f
    ensures CodeLength(a) == CodeLength(b)
  {
    if a != [] {
      CodeLengthSame(a[..|a| - 1], b[..|b| - 1]);
    }
  }

  /** Flattening function `i` adds its own code and that of the functions it appends. */
  lemma CodeMore(a: seq<FlatFun>, b: seq<FlatFun>, start: nat, end: nat, i: nat)
    requires start <= i < end <= |a| <= |b| && forall k :: 0 <= k < |a| ==> a[k].f == b[k].f
    ensures CodeLength(b[start..i + 1]) + CodeLength(b[end..]) ==
            CodeLength(a[start..i]) + CodeLength(a[end..]) + |a[i].f.code| + CodeLength(b[|a|..])
  {
    assert b[start..i + 1][..i - start] == b[start..i];
    CodeLengthSame(b[start..i], a[start..i]);
    assert b[end..] == b[end..|a|] + b[|a|..];
    CodeLengthAppend(b[end..|a|], b[|a|..]);
    CodeLengthSame(b[end..|a|], a[end..]);
  }

  /** While the functions that `g` lists, from `start` to `end`, are flattened: `o` are the files
      before, `l` those after listing, `v` those now, with the functions before `i` done. */
  ghost predicate Flattening(o: Files, l: Files, v: Files, chunkIndex: nat, start: nat, end: nat, i: nat) {
    && chunkIndex < start == |o.funs| <= i <= end == |l.funs| <= |v.funs|
    && Changed(o, v, chunkIndex) && v.funs[chunkIndex] == l.funs[chunkIndex]
    && l.strings <= v.strings && l.doubles <= v.doubles && l.ints <= v.ints && l.addresses <= v.addresses
    && (forall j :: start <= j < end ==> v.funs[j].f == l.funs[j].f)
    && (forall j :: start <= j < i || end <= j < |v.funs| ==> Represents(v, j, v.funs[j].f, end))
  }

  lemma FlatteningStep(o: Files, l: Files, a: Files, b: Files, chunkIndex: nat, start: nat, end: nat, i: nat)
    requires Flattening(o, l, a, chunkIndex, start, end, i) && i < end
    requires Changed(a, b, i) && Represents(b, i, a.funs[i].f, |a.funs|)
    requires forall j :: |a.funs| <= j < |b.funs| ==> Represents(b, j, b.funs[j].f, |a.funs|)
    ensures Flattening(o, l, b, chunkIndex, start, end, i + 1)
    ensures forall k :: 0 <= k < |a.funs| ==> b.funs[k].f == a.funs[k].f
  {
    assert b.funs[i].f == a.funs[i].f;
    forall j | start <= j < i || end <= j < |a.funs| ensures Represents(b, j, b.funs[j].f, end) {
      StillRepresents(a, b, i, j, a.funs[j].f, end);
    }
    forall j | j == i || |a.funs| <= j < |b.funs| ensures Represents(b, j, b.funs[j].f, end) {
      RepresentsLower(b, j, b.funs[j].f, |a.funs|, end);
    }
  }

  /** Once the listed functions are flattened, the constants stand for what they should. */
  lemma FlatteningDone(o: Files, l: Files, v: Files, chunkIndex: nat, start: nat, end: nat, g: Fun)
    requires Flattening(o, l, v, chunkIndex, start, end, end)
    requires l.funs[chunkIndex].f == g && |l.funs[chunkIndex].items| == |g.constants|
    requires forall k :: 0 <= k < |g.constants| ==> Listed(l, l.funs[chunkIndex].items[k], g.constants[k], start)
    ensures Represents(v, chunkIndex, g, start) && Changed(o, v, chunkIndex)
    ensures forall j :: start <= j < |v.funs| ==> Represents(v, j, v.funs[j].f, start)
  {
    forall j | start <= j < |v.funs| ensures Represents(v, j, v.funs[j].f, start) {
      RepresentsLower(v, j, v.funs[j].f, end, start);
    }
    forall k | 0 <= k < |g.constants| ensures Stands(v, v.funs[chunkIndex].items[k], g.constants[k], start) {
      var item := l.funs[chunkIndex].items[k];
      assert Listed(l, item, g.constants[k], start);
    }
  }

  class FlatFiles {
    var strings: seq<seq<Byte>>
    var doubles: seq<Bytes8>
    var ints: seq<Const>
    var funs: seq<FlatFun>
    var addresses: seq<Bytes8>
    var totalCodeLength: nat
    var totalIntsLength: nat
    var totalStringLength: nat

    ghost function View(): Files
      reads this
    {
      Files(strings, doubles, ints, funs, addresses)
    }

    ghost predicate Valid()
      reads `ints, `strings
    {
      AllNumbers(ints) && DistinctStrings(strings)
    }

    constructor (scriptFn: Fun)
      ensures Valid() && View() == Files([], [], [], [FlatFun(scriptFn, [])], []) && totalCodeLength == 0
    {
      strings, doubles, ints, addresses := [], [], [], [];
      funs := [FlatFun(scriptFn, [])];
      totalCodeLength, totalIntsLength, totalStringLength := 0, 0, 0;
    }

    /** A string that is there already is not listed again. */
    method AddString(s: seq<Byte>) returns (item: ConstItem)
      requires Valid()
      modifies `strings
      ensures Valid() && old(strings) <= strings && item.index < |strings| && strings[item.index] == s
      ensures item.kind == PACK_CONST_TYPE_S && strings == if s in old(strings) then old(strings) else old(strings) + [s]
    {
      var sI := 0;
      while sI < |strings|
        invariant 0 <= sI <= |strings| && forall k :: 0 <= k < sI ==> strings[k] != s
      {
        if strings[sI] == s {
          return ConstItem(PACK_CONST_TYPE_S, sI, 0);
        }
        sI := sI + 1;
      }
      item := ConstItem(PACK_CONST_TYPE_S, |strings|, 0);
      strings := strings + [s];
    }

    /** Lists a constant in the file of its type. */
    method AddConstant(c: Const, ghost lo: nat) returns (item: ConstItem)
      requires Valid() && lo <= |funs|
      modifies `strings, `doubles, `ints, `funs, `addresses
      ensures Valid() && Changed(old(View()), View(), |old(funs)|) && Listed(View(), item, c, lo)
      ensures funs == old(funs) + if c.Function? then [FlatFun(c.f, [])] else []
      ensures InFiles(View()) == Plus(InFiles(old(View())), OneConst(c))
    {
      match c
      case Str(s) => item := AddString(s);
      case Number(_, _) =>
        item := ConstItem(PACK_CONST_TYPE_I, |ints|, 0);
        ints := ints + [c];
      case Double(b) =>
        item := ConstItem(PACK_CONST_TYPE_D, |doubles|, 0);
        doubles := doubles + [b];
      case Function(f) =>
        item := ConstItem(PACK_CONST_TYPE_F, |funs|, 0);
        funs := funs + [FlatFun(f, [])];
      case Address(b) =>
        item := ConstItem(PACK_CONST_TYPE_A, |addresses|, 0);
        addresses := addresses + [b];
    }

    /** The constants of a function, one by one, with the functions among them listed at the end. */
    method ListAll(g: Fun) returns (items: seq<ConstItem>)
      requires Valid()
      modifies `strings, `doubles, `ints, `funs, `addresses
      ensures Valid() && Changed(old(View()), View(), |old(funs)|) && old(funs) <= funs && |items| == |g.constants|
      ensures forall k :: 0 <= k < |g.constants| ==> Listed(View(), items[k], g.constants[k], |old(funs)|)
      ensures Tallied(old(View()), View(), g.constants)
    {
      hide InFiles, OneConst, Plus, FunsOf, Tallied, Direct, FunctionsAmong;
      items := [];
      TalliedNothing(View());
      while |items| < |g.constants|
        invariant |items| <= |g.constants| && Valid() && Changed(old(View()), View(), |old(funs)|) && old(funs) <= funs
        invariant forall k :: 0 <= k < |items| ==> Listed(View(), items[k], g.constants[k], |old(funs)|)
        invariant Tallied(old(View()), View(), g.constants[..|items|])
      {
        var c := g.constants[|items|];
        ghost var before := View();
        var item := AddConstant(c, |old(funs)|);
        TalliedNext(old(View()), before, View(), g.constants, |items|);
        items := items + [item];
      }
      assert g.constants[..|items|] == g.constants;
    }

    /** The first half of flattening a function: its constants, with the functions among them listed
        at the end. */
    method ListConstants(chunkIndex: nat, g: Fun)
      requires Valid() && chunkIndex < |funs| && funs[chunkIndex].f == g
      modifies `strings, `doubles, `ints, `funs, `addresses
      ensures Valid() && Changed(old(View()), View(), chunkIndex)
      ensures funs[chunkIndex].f == g && |funs[chunkIndex].items| == |g.constants|
      ensures forall k :: 0 <= k < |g.constants| ==> Listed(View(), funs[chunkIndex].items[k], g.constants[k], |old(funs)|)
      ensures |old(funs)| <= |funs| && Tallied(old(View()), View(), g.constants)
    {
      hide InFiles, Direct, FunctionsAmong;
      var items := ListAll(g);
      ghost var before := View();
      funs := funs[chunkIndex := FlatFun(g, items)];
      TalliedStill(old(View()), before, View(), chunkIndex, g.constants);
    }

    method FlattenConstants(chunkIndex: nat, g: Fun)
      requires Valid() && chunkIndex < |funs| && funs[chunkIndex].f == g
      modifies `strings, `doubles, `ints, `funs, `addresses, `totalCodeLength
      ensures Valid() && Changed(old(View()), View(), chunkIndex)
      ensures Represents(View(), chunkIndex, g, |old(funs)|) && |old(funs)| <= |funs|
      ensures forall j :: |old(funs)| <= j < |funs| ==> Represents(View(), j, funs[j].f, |old(funs)|)
      ensures totalCodeLength == old(totalCodeLength) + |g.code| + CodeLength(funs[|old(funs)|..])
      ensures InFiles(View()) == Plus(InFiles(old(View())), Whole(g))
      decreases g
    {
      hide Represents, CodeLength, Listed, Valid, Changed, InFiles, Whole, WholeOf, FunctionsAmong, Tallied, Plus, Flattening;
      var startSubs := |funs|;
      totalCodeLength := totalCodeLength + |g.code|;
      ListConstants(chunkIndex, g);
      var endSubs := |funs|;
      ghost var o, l := old(View()), View();
      ghost var fs := FunctionsAmong(g.constants);
      FlatteningStart(o, l, chunkIndex);
      NoneTallied(l, fs);
      FunctionsListed(o, l, g);
      var i := startSubs;
      while i < endSubs
        invariant startSubs <= i <= endSubs <= |funs| && Valid() && Flattening(o, l, View(), chunkIndex, startSubs, endSubs, i)
        invariant totalCodeLength == old(totalCodeLength) + |g.code| + CodeLength(funs[startSubs..i]) + CodeLength(funs[endSubs..])
        invariant i - startSubs <= |fs| && InFiles(View()) == Plus(InFiles(l), WholeOf(fs[..i - startSubs]))
      {
        ghost var before := View();
        SubListed(o, l, before, g, chunkIndex, startSubs, endSubs, i);
        FlattenConstants(i, funs[i].f);
        SubTallied(l, before, View(), fs, i - startSubs);
        FlatteningStep(o, l, before, View(), chunkIndex, startSubs, endSubs, i);
        CodeMore(before.funs, funs, startSubs, endSubs, i);
        i := i + 1;
      }
      FlatteningDone(o, l, View(), chunkIndex, startSubs, endSubs, g);
      assert fs[..|fs|] == fs;
      WholeTallied(o, l, View(), g);
      assert funs[startSubs..] == funs[startSubs..endSubs] + funs[endSubs..];
      CodeLengthAppend(funs[startSubs..endSubs], funs[endSubs..]);
    }

    // ---- offsets ----

    /** Gives every constant of this type and index its offset; there may be several. */
    method Place(kind: Byte, index: nat, offset: nat)
      modifies `funs
      ensures SameButOffsets(old(funs), funs)
      ensures forall f, k :: 0 <= f < |funs| && 0 <= k < |funs[f].items| ==>
                funs[f].items[k].offset ==
                  if funs[f].items[k].kind == kind && funs[f].items[k].index == index then offset
                  else old(funs)[f].items[k].offset
    {
      var fI := 0;
      while fI < |funs|
        invariant 0 <= fI <= |funs| && SameButOffsets(old(funs), funs)
        invariant forall f :: 0 <= f < fI ==> PlacedIn(old(funs)[f].items, funs[f].items, kind, index, offset)
        invariant forall f :: fI <= f < |funs| ==> funs[f] == old(funs)[f]
      {
        var items := PlaceIn(funs[fI].items, kind, index, offset);
        funs := funs[fI := funs[fI].(items := items)];
        fI := fI + 1;
      }
    }

    method PlaceIn(was: seq<ConstItem>, kind: Byte, index: nat, offset: nat) returns (items: seq<ConstItem>)
      ensures PlacedIn(was, items, kind, index, offset)
    {
      items := was;
      var constI := 0;
      while constI < |items|
        invariant 0 <= constI <= |items| == |was|
        invariant PlacedIn(was[..constI], items[..constI], kind, index, offset) && items[constI..] == was[constI..]
      {
        if items[constI].kind == kind && items[constI].index == index {
          items := items[constI := items[constI].(offset := offset)];
        }
        constI := constI + 1;
      }
    }

    method CalcStringOffsets()
      requires Valid()
      modifies `funs, `totalStringLength
      ensures SameButOffsets(old(funs), funs)
      ensures forall k :: 0 <= k < |strings| ==> PlacedAt(funs, PACK_CONST_TYPE_S, k, Offset(StringParts(strings), k))
      ensures totalStringLength == |Cat(StringParts(strings))|
    {
      hide Cat, Offset;
      var sOffset, sI := 0, 0;
      OffsetZero(StringParts(strings));
      while sI < |strings|
        invariant 0 <= sI <= |strings| && SameButOffsets(old(funs), funs)
        invariant sOffset == Offset(StringParts(strings), sI)
        invariant forall k :: 0 <= k < sI ==> PlacedAt(funs, PACK_CONST_TYPE_S, k, Offset(StringParts(strings), k))
      {
        Place(PACK_CONST_TYPE_S, sI, sOffset);
        OffsetNext(StringParts(strings), sI);
        sOffset := sOffset + |strings[sI]| + 1;
        sI := sI + 1;
      }
      totalStringLength := sOffset;
      CatLength(StringParts(strings));
    }

    method CalcIntOffsets()
      requires Valid()
      modifies `funs, `totalIntsLength
      ensures SameButOffsets(old(funs), funs)
      ensures forall k :: 0 <= k < |ints| ==> PlacedAt(funs, PACK_CONST_TYPE_I, k, Offset(IntParts(ints), k))
      ensures forall k, o :: PlacedAt(old(funs), PACK_CONST_TYPE_S, k, o) ==> PlacedAt(funs, PACK_CONST_TYPE_S, k, o)
      ensures totalIntsLength == |Cat(IntParts(ints))|
    {
      hide Cat, Offset;
      var iOffset, iI := 0, 0;
      OffsetZero(IntParts(ints));
      while iI < |ints|
        invariant 0 <= iI <= |ints| && SameButOffsets(old(funs), funs)
        invariant iOffset == Offset(IntParts(ints), iI)
        invariant forall k, o :: PlacedAt(old(funs), PACK_CONST_TYPE_S, k, o) ==> PlacedAt(funs, PACK_CONST_TYPE_S, k, o)
        invariant forall k :: 0 <= k < iI ==> PlacedAt(funs, PACK_CONST_TYPE_I, k, Offset(IntParts(ints), k))
      {
        Place(PACK_CONST_TYPE_I, iI, iOffset);
        OffsetNext(IntParts(ints), iI);
        var d := |ints[iI].digits|;
        iOffset := iOffset + 4 + 2 * (d + d % 2);
        iI := iI + 1;
      }
      totalIntsLength := iOffset;
      CatLength(IntParts(ints));
    }

    /** The offsets of strings and integers, whose lengths vary. */
    method CalcStringAndIntOffsets()
      requires Valid()
      modifies `funs, `totalStringLength, `totalIntsLength
      ensures SameButOffsets(old(funs), funs) && Placed(View())
      ensures totalStringLength == |Cat(StringParts(strings))| && totalIntsLength == |Cat(IntParts(ints))|
    {
      hide Cat, Offset, PlacedAt;
      CalcStringOffsets();
      CalcIntOffsets();
    }

    // ---- writing ----

    method WriteItems(items: seq<ConstItem>) returns (s: seq<Byte>)
      ensures s == ItemsBytes(items)
    {
      s := [];
      var k := 0;
      while k < |items|
        invariant 0 <= k <= |items| && s == ItemsBytes(items[..k])
      {
        var ci := items[k];
        var indexOrOffset := if ci.kind == PACK_CONST_TYPE_S || ci.kind == PACK_CONST_TYPE_I then ci.offset else ci.index;
        s := s + [ci.kind] + LE24(indexOrOffset);
        ItemsNext(items, k);
        k := k + 1;
      }
      assert items[..|items|] == items;
    }

    method WriteChunk(i: nat) returns (s: seq<Byte>)
      requires i < |funs|
      ensures s == ChunkPart(funs[i], i)
    {
      var fn := funs[i];
      var arity, numUpvalues := fn.f.arity, fn.f.upvalueCount;
      if i == 0 {
        arity, numUpvalues := 0, 0;
      }
      s := LE16(|fn.items|);
      s := s + LE16(|fn.f.code|);
      s := s + LE16(arity);
      s := s + LE16(numUpvalues);
      var items := WriteItems(fn.items);
      s := s + items;
    }

    /** The length of the body, from the totals of the files. */
    method BodyLength() returns (n: nat)
      requires Valid() && totalStringLength == |Cat(StringParts(strings))| && totalIntsLength == |Cat(IntParts(ints))|
      requires totalCodeLength == CodeLength(funs)
      ensures n == PackFormat.BodyLength(View())
    {
      hide Cat, Offset, CodeLength;
      n := |doubles| % 65536 * 8;
      n := n + |addresses| % 65536 * 8;
      n := n + 8 * |funs|;
      ghost var before := n;
      var i := 0;
      OffsetZero(ChunkParts(funs));
      while i < |funs|
        invariant 0 <= i <= |funs| && n == before - 8 * i + Offset(ChunkParts(funs), i)
      {
        OffsetNext(ChunkParts(funs), i);
        n := n + 4 * |funs[i].items|;
        i := i + 1;
      }
      n := n + totalIntsLength + totalStringLength + totalCodeLength;
      CatLength(ChunkParts(funs));
      CatCode(funs);
    }

    /** `pack`: the header and the sections of the body, in order. */
    method WritePackage() returns (file: seq<Byte>)
      requires Valid() && totalStringLength == |Cat(StringParts(strings))| && totalIntsLength == |Cat(IntParts(ints))|
      requires totalCodeLength == CodeLength(funs)
      ensures file == Package(View())
    {
      hide Cat, Offset, Header, ChunkPart, IntPart, PackFormat.BodyLength;
      var bodyLength := BodyLength();
      file := Header(Files(strings, doubles, ints, funs, addresses), bodyLength);
      var d := WriteEights(doubles);
      var a := WriteEights(addresses);
      var c := WriteChunks();
      var i := WriteInts();
      var t := WriteStrings();
      var o := WriteCode();
      file := file + d + a + c + i + t + o;
      CatSections(View());
    }

    static method WriteEights(parts: seq<Bytes8>) returns (s: seq<Byte>)
      ensures s == Cat(parts)
    {
      s := [];
      var i := 0;
      while i < |parts|
        invariant 0 <= i <= |parts| && s == Cat(parts[..i])
      {
        CatNext(parts, i);
        s := s + parts[i];
        i := i + 1;
      }
      assert parts[..|parts|] == parts;
    }

    method WriteChunks() returns (s: seq<Byte>)
      ensures s == Cat(ChunkParts(funs))
    {
      hide Cat, ChunkPart;
      s := [];
      var i := 0;
      ghost var parts := ChunkParts(funs);
      CatNone(parts);
      while i < |funs|
        invariant 0 <= i <= |funs| && s == Cat(parts[..i])
      {
        CatNext(parts, i);
        var chunk := WriteChunk(i);
        s := s + chunk;
        i := i + 1;
      }
      assert parts[..|parts|] == parts;
    }

    method WriteInts() returns (s: seq<Byte>)
      requires AllNumbers(ints)
      ensures s == Cat(IntParts(ints))
    {
      hide Cat, IntPart;
      s := [];
      var iI := 0;
      ghost var parts := IntParts(ints);
      CatNone(parts);
      while iI < |ints|
        invariant 0 <= iI <= |ints| && s == Cat(parts[..iI])
      {
        CatNext(parts, iI);
        s := s + IntPart(ints[iI]);
        iI := iI + 1;
      }
      assert parts[..|parts|] == parts;
    }

    method WriteStrings() returns (s: seq<Byte>)
      ensures s == Cat(StringParts(strings))
    {
      hide Cat;
      s := [];
      var sI := 0;
      ghost var parts := StringParts(strings);
      CatNone(parts);
      while sI < |strings|
        invariant 0 <= sI <= |strings| && s == Cat(parts[..sI])
      {
        CatNext(parts, sI);
        s := s + strings[sI];
        s := s + [0];
        sI := sI + 1;
      }
      assert parts[..|parts|] == parts;
    }

    method WriteCode() returns (s: seq<Byte>)
      ensures s == Cat(CodeParts(funs))
    {
      hide Cat;
      s := [];
      var i := 0;
      ghost var parts := CodeParts(funs);
      CatNone(parts);
      while i < |funs|
        invariant 0 <= i <= |funs| && s == Cat(parts[..i])
      {
        CatNext(parts, i);
        s := s + funs[i].f.code;
        i := i + 1;
      }
      assert parts[..|parts|] == parts;
    }
  }

  /** `packScript`: what is written, and that the files behind it are the script's. */
  method PackScript(scriptFn: Fun) returns (file: seq<Byte>, files: Files)
    ensures Complete(files) && files.funs[0].f == scriptFn
    ensures AllNumbers(files.ints) && Placed(files) && DistinctStrings(files.strings)
    ensures |files.ints| == Whole(scriptFn).ints && |files.doubles| == Whole(scriptFn).doubles
    ensures |files.addresses| == Whole(scriptFn).addresses && |files.funs| == 1 + Whole(scriptFn).funs
    ensures (set s | s in files.strings) == Whole(scriptFn).strings
    ensures file == Package(files)
  {
    hide Represents, Placed, Cat, CodeLength, Package, Whole, InFiles, Plus;
    var f := new FlatFiles(scriptFn);
    ghost var start := f.View();
    f.FlattenConstants(0, scriptFn);
    ghost var flat := f.View();
    TalliedFromStart(start, flat, scriptFn);
    assert flat.funs == flat.funs[..1] + flat.funs[1..];
    CodeLengthAppend(flat.funs[..1], flat.funs[1..]);
    CodeLengthOne(flat.funs[0]);
    assert flat.funs[..1] == [flat.funs[0]];
    RepresentsFun(flat, 0, scriptFn, 1);
    f.CalcStringAndIntOffsets();
    files := Files(f.strings, f.doubles, f.ints, f.funs, f.addresses);
    assert forall j :: 0 <= j < |flat.funs| ==> Represents(flat, j, flat.funs[j].f, 1);
    forall j | 0 <= j < |files.funs| ensures Represents(files, j, files.funs[j].f, 1) {
      OffsetsKeep(flat, files, j, flat.funs[j].f, 1);
    }
    CodeLengthSame(flat.funs, files.funs);
    file := f.WritePackage();
  }

  lemma TalliedFromStart(start: Files, flat: Files, g: Fun)
    requires start == Files([], [], [], [FlatFun(g, [])], []) && InFiles(flat) == Plus(InFiles(start), Whole(g))
    ensures |flat.ints| == Whole(g).ints && |flat.doubles| == Whole(g).doubles && |flat.addresses| == Whole(g).addresses
    ensures |flat.funs| == 1 + Whole(g).funs && (set s | s in flat.strings) == Whole(g).strings
  {
    hide Whole;
    assert InFiles(start).strings == {};
    assert InFiles(flat).strings == InFiles(start).strings + Whole(g).strings;
  }

  lemma RepresentsFun(f: Files, i: nat, g: Fun, lo: nat)
    requires Represents(f, i, g, lo)
    ensures i < |f.funs| && f.funs[i].f == g
  {
  }

  lemma CodeLengthOne(f: FlatFun)
    ensures CodeLength([f]) == |f.f.code|
  {
    assert CodeLength([]) == 0;
  }

  lemma {:induction false} OffsetsKeep(a: Files, b: Files, i: nat, g: Fun, lo: nat)
    requires Represents(a, i, g, lo) && SameButOffsets(a.funs, b.funs) && b == a.(funs := b.funs)
    ensures Represents(b, i, g, lo)
    decreases g
  {
    forall k | 0 <= k < |g.constants| ensures Stands(b, b.funs[i].items[k], g.constants[k], lo) {
      assert Stands(a, a.funs[i].items[k], g.constants[k], lo);
      if g.constants[k].Function? {
        OffsetsKeep(a, b, a.funs[i].items[k].index, g.constants[k].f, lo);
      }
    }
  }

  lemma CatNone(parts: seq<seq<Byte>>)
    ensures Cat(parts[..0]) == []
  {
  }

  lemma {:induction false} ItemsNext(items: seq<ConstItem>, k: nat)
    requires k < |items|
    ensures ItemsBytes(items[..k + 1]) == ItemsBytes(items[..k]) + ItemBytes(items[k])
  {
    if k > 0 {
      ItemsNext(items[1..], k - 1);
      assert items[..k + 1][1..] == items[1..][..k] && items[..k][1..] == items[1..][..k - 1];
    }
  }

  lemma {:induction false} CatEights(parts: seq<Bytes8>)
    ensures |Cat(parts)| == 8 * |parts|
  {
    if parts != [] {
      CatEights(parts[1..]);
    }
  }

  lemma {:induction false} CatCode(funs: seq<FlatFun>)
    ensures |Cat(CodeParts(funs))| == CodeLength(funs)
  {
    if funs != [] {
      var n := |funs| - 1;
      CatCode(funs[..n]);
      CatNext(CodeParts(funs), n);
      assert CodeParts(funs)[..n] == CodeParts(funs[..n]);
      assert CodeParts(funs)[..n + 1] == CodeParts(funs);
    }
  }

  lemma CatSections(f: Files)
    requires AllNumbers(f.ints)
    ensures Cat(BodyParts(f)) ==
            Cat(f.doubles) + Cat(f.addresses) + Cat(ChunkParts(f.funs)) + Cat(IntParts(f.ints))
            + Cat(StringParts(f.strings)) + Cat(CodeParts(f.funs))
  {
    hide Cat, Offset, StringParts, IntParts, ChunkParts, CodeParts;
    var a: seq<seq<Byte>> := f.doubles;
    var b: seq<seq<Byte>> := f.addresses;
    var c, i, s, o := ChunkParts(f.funs), IntParts(f.ints), StringParts(f.strings), CodeParts(f.funs);
    CatAppend(a, b);
    CatAppend(a + b, c);
    CatAppend(a + b + c, i);
    CatAppend(a + b + c + i, s);
    CatAppend(a + b + c + i + s, o);
  }

  lemma OffsetZero(parts: seq<seq<Byte>>)
    ensures Offset(parts, 0) == 0
  {
  }

  ghost predicate PlacedIn(was: seq<ConstItem>, items: seq<ConstItem>, kind: Byte, index: nat, offset: nat) {
    && |items| == |was|
    && forall k :: 0 <= k < |items| ==>
         items[k] == if was[k].kind == kind && was[k].index == index then was[k].(offset := offset) else was[k]
  }

  ghost predicate SameButOffsets(a: seq<FlatFun>, b: seq<FlatFun>) {
    && |a| == |b|
    && (forall f :: 0 <= f < |a| ==> b[f].f == a[f].f && |b[f].items| == |a[f].items|)
    && (forall f, k :: 0 <= f < |a| && 0 <= k < |a[f].items| ==>
          b[f].items[k].kind == a[f].items[k].kind && b[f].items[k].index == a[f].items[k].index)
  }

  lemma FlatteningStart(o: Files, l: Files, chunkIndex: nat)
    requires Changed(o, l, chunkIndex) && chunkIndex < |o.funs|
    ensures Flattening(o, l, l, chunkIndex, |o.funs|, |l.funs|, |o.funs|)
    ensures l.funs[|l.funs|..] == [] && CodeLength(l.funs[|o.funs|..|o.funs|]) == 0 && CodeLength(l.funs[|l.funs|..]) == 0
  {
  }
}
