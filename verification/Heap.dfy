/** Mark-sweep collection over the list of all objects, and the weak table of interned strings
    (cyarg/memory.c, cyarg/yargobject.c). */
module Reachability {
  import opened Objects

  /** The objects and what each refers to, as a value. */
  type Graph = map<Obj, set<Obj>>

  /** Everything at most `n` references away from the roots. */
  ghost function Within(g: Graph, roots: seq<Obj?>, n: nat): set<Obj> {
    if n == 0 then
      set r: Obj | r in roots
    else
      Within(g, roots, n - 1)
      + set o: Obj, c: Obj | o in Within(g, roots, n - 1) && o in g && c in g[o] :: c
  }

  ghost predicate Reachable(g: Graph, roots: seq<Obj?>, o: Obj) {
    exists n: nat :: o in Within(g, roots, n)
  }

  lemma RootReachable(g: Graph, roots: seq<Obj?>, r: Obj)
    requires r in roots
    ensures Reachable(g, roots, r)
  {
    assert r in Within(g, roots, 0);
  }

  lemma ChildReachable(g: Graph, roots: seq<Obj?>, o: Obj, c: Obj)
    requires Reachable(g, roots, o) && o in g && c in g[o]
    ensures Reachable(g, roots, c)
  {
    var n: nat :| o in Within(g, roots, n);
    assert c in Within(g, roots, n + 1);
  }

  /** A set that holds the roots and is closed under references holds everything reachable. */
  lemma {:induction false} ClosedHoldsAll(g: Graph, roots: seq<Obj?>, s: set<Obj>, n: nat)
    requires forall r: Obj? :: r in roots && r != null ==> r in s
    requires forall o: Obj, c: Obj :: o in s && o in g && c in g[o] ==> c in s
    ensures Within(g, roots, n) <= s
  {
    if n > 0 {
      ClosedHoldsAll(g, roots, s, n - 1);
    }
  }

  /** With more roots, and the same references in everything it reached, a graph reaches as much. */
  lemma {:induction false} ReachesAsMuch(g: Graph, roots: seq<Obj?>, g': Graph, roots': seq<Obj?>, n: nat)
    requires forall r: Obj? :: r in roots ==> r in roots'
    requires forall o :: o in g && Reachable(g, roots, o) ==> o in g' && g'[o] == g[o]
    ensures Within(g, roots, n) <= Within(g', roots', n)
  {
    if n > 0 {
      ReachesAsMuch(g, roots, g', roots', n - 1);
      forall o: Obj, c: Obj | o in Within(g, roots, n - 1) && o in g && c in g[o]
        ensures c in Within(g', roots', n)
      {
        assert Reachable(g, roots, o);
      }
    }
  }

  lemma StillReachable(g: Graph, roots: seq<Obj?>, g': Graph, roots': seq<Obj?>, o: Obj)
    requires forall r: Obj? :: r in roots ==> r in roots'
    requires forall o :: o in g && Reachable(g, roots, o) ==> o in g' && g'[o] == g[o]
    requires Reachable(g, roots, o)
    ensures Reachable(g', roots', o)
  {
    var n: nat :| o in Within(g, roots, n);
    ReachesAsMuch(g, roots, g', roots', n);
  }

  /** The elements of `objs` that are in `s`, in order. */
  ghost function Keep(objs: seq<Obj>, s: set<Obj>): seq<Obj> {
    KeepTo(objs, s, |objs|)
  }

  ghost function KeepTo(objs: seq<Obj>, s: set<Obj>, k: nat): seq<Obj>
    requires k <= |objs|
  {
    if k == 0 then []
    else KeepTo(objs, s, k - 1) + if objs[k - 1] in s then [objs[k - 1]] else []
  }

  lemma {:induction false} KeepElements(objs: seq<Obj>, s: set<Obj>, k: nat)
    requires k <= |objs|
    ensures forall o :: o in KeepTo(objs, s, k) <==> o in objs[..k] && o in s
    ensures Distinct(objs) ==> Distinct(KeepTo(objs, s, k))
  {
    if k > 0 {
      KeepElements(objs, s, k - 1);
      assert objs[..k] == objs[..k - 1] + [objs[k - 1]];
    }
  }

  ghost predicate Distinct(objs: seq<Obj>) {
    forall i, j :: 0 <= i < j < |objs| ==> objs[i] != objs[j]
  }
}

module Heap {
  import opened Objects
  import opened Table
  import opened Reachability
  import Digits

  /** `hashString` */
  function HashString(chars: seq<bv8>): (h: nat) {
    Hash32(chars) as int
  }

  function Hash32(chars: seq<bv8>): bv32 {
    if |chars| == 0 then 2166136261
    else (Hash32(chars[..|chars| - 1]) ^ (chars[|chars| - 1] as bv32)) + 16777619
  }

  /** Characters are hashed one after the other, into 32 bits that wrap around. */
  lemma HashesInOrder(chars: seq<bv8>, c: bv8)
    ensures HashString([]) == 0x811C9DC5 && HashString([0x61]) == 0x821C9F37
    ensures Hash32(chars + [c]) == (Hash32(chars) ^ (c as bv32)) + 0x01000193
  {
    assert (chars + [c])[..|chars|] == chars;
    assert [0x61 as bv8][..0] == [];
    assert Hash32([0x61]) == 0x821C9F37;
  }

  /** `objects` is the linked list of exactly `objs`. */
  ghost predicate IsList(objects: Obj?, objs: seq<Obj>)
    reads objs`next
  {
    && Distinct(objs)
    && objects == NodeAt(objs, 0, null)
    && LinkedFrom(objs, 0)
  }

  ghost predicate LinkedFrom(objs: seq<Obj>, k: nat)
    reads objs`next
  {
    forall i :: k <= i < |objs| ==> objs[i].next == NodeAt(objs, i + 1, null)
  }

  /** Element `i`, or what follows the last one. */
  ghost function NodeAt(objs: seq<Obj>, i: nat, last: Obj?): Obj? {
    if i < |objs| then objs[i] else last
  }

  class Vm {
    var objects: Obj?
    ghost var objs: seq<Obj>
    var grayStack: seq<Obj>
    const strings: ValueTable
    var roots: seq<Obj?>          // everything `markRoots` marks directly
    var tempRoots: seq<Obj?>

    constructor ()
      ensures Valid() && fresh(strings) && fresh(strings.entries) && objs == [] && strings.M == map[] && tempRoots == []
    {
      objects, objs, grayStack, roots, tempRoots := null, [], [], [], [];
      strings := new ValueTable();
    }

    /** What holds whenever a collection may start. */
    ghost predicate WellFormed()
      reads this, objs, strings, strings.entries
    {
      && IsList(objects, objs)
      && (forall o :: o in objs ==> !o.isMarked)
      && grayStack == []
      && Closed()
      && StringsOk()
    }

    /** The string table holds live strings, correctly hashed, no two with the same contents. */
    ghost predicate StringsOk()
      reads this`objs, strings, strings.entries
    {
      && strings.Valid()
      && (forall k :: k in strings.M ==> k in objs && k.isString && k.hash == HashString(k.chars))
      && (forall k, k' :: k in strings.M && k' in strings.M && k.chars == k'.chars ==> k == k')
    }

    /** Every string object, except perhaps a new one, is in the table. */
    ghost predicate InternedBut(s: Obj?)
      reads this`objs, strings
    {
      forall o :: o in objs && o.isString && o != s ==> o in strings.M
    }

    /** References stay inside the heap. */
    ghost predicate Closed()
      reads this, objs
    {
      && (forall r: Obj? :: r in roots + tempRoots && r != null ==> r in objs)
      && forall o, c :: o in objs && c in References(o.body) ==> c in objs
    }

    /** Between operations every string object is interned. */
    ghost predicate Valid()
      reads this, objs, strings, strings.entries
    {
      WellFormed() && InternedBut(null)
    }

    ghost function Snapshot(): Graph
      reads this, objs
    {
      map o | o in objs :: References(o.body)
    }

    ghost function AllRoots(): seq<Obj?>
      reads this
    {
      roots + tempRoots
    }

    /** Everything that was reachable is still there and refers to what it referred to. */
    ghost predicate KeepsAll(g: Graph, from: seq<Obj?>)
      reads this`objs, objs`body
    {
      forall o :: o in g && Reachable(g, from, o) ==> o in objs && References(o.body) == g[o]
    }

    /** What holds while marking: `g` is the graph, `current` the object being blackened, of whose
        references those in `done` have been marked. */
    ghost predicate Marking(g: Graph, from: seq<Obj?>, current: Obj?, done: set<Obj>)
      reads this, objs
    {
      && (forall o :: o in objs ==> o in g && References(o.body) == g[o])
      && (forall o :: o in g ==> o in objs)
      && (forall o, c :: o in g && c in g[o] ==> c in g)
      && (forall i :: 0 <= i < |grayStack| ==> grayStack[i] in objs && grayStack[i].isMarked)
      && Distinct(grayStack)
      && (forall o :: o in objs && o.isMarked ==> Reachable(g, from, o))
      && (forall o, c :: o in objs && o.isMarked && o !in grayStack && o != current && c in g[o] ==> c in objs && c.isMarked)
      && (current != null ==> current in objs && forall o :: o in done ==> o in objs && o.isMarked)
    }

    ghost function Unmarked(): set<Obj>
      reads this, objs
    {
      set o | o in objs && !o.isMarked
    }

    /** Marks are only set, and with every new one another object is gray. */
    twostate predicate MarkedMore()
      reads this, objs
    {
      && (forall o :: o in objs && o in old(objs) && old(o.isMarked) ==> o.isMarked)
      && (Unmarked() < old(Unmarked()) || (Unmarked() == old(Unmarked()) && grayStack == old(grayStack)))
    }

    /** `markObject` */
    method MarkObject(obj: Obj?, ghost g: Graph, ghost from: seq<Obj?>, ghost current: Obj?, ghost done: set<Obj>)
      requires Marking(g, from, current, done)
      requires obj != null ==> obj in objs && Reachable(g, from, obj)
      modifies this`grayStack, objs`isMarked
      ensures Marking(g, from, current, done + Refs([obj])) && MarkedMore()
      ensures obj != null ==> obj.isMarked
      ensures current != null && current !in old(grayStack) && old(current.isMarked) ==> current !in grayStack
    {
      if obj == null || obj.isMarked {
        return;
      }
      obj.isMarked := true;
      grayStack := grayStack + [obj];
      assert obj in old(Unmarked()) && obj !in Unmarked();
    }

    /** An object that is being blackened. */
    ghost predicate Blackening(g: Graph, from: seq<Obj?>, obj: Obj, done: set<Obj>)
      reads this, objs
    {
      Marking(g, from, obj, done) && obj.isMarked && obj !in grayStack
    }

    /** `markObject`, of something that the object refers to. */
    method MarkChild(c: Obj?, obj: Obj, ghost g: Graph, ghost from: seq<Obj?>, ghost done: set<Obj>)
      returns (ghost more: set<Obj>)
      requires Blackening(g, from, obj, done) && Refs([c]) <= References(obj.body)
      modifies this`grayStack, objs`isMarked
      ensures Blackening(g, from, obj, more) && done + Refs([c]) <= more && MarkedMore()
    {
      hide Reachable, References;
      if c != null {
        assert c in Refs([c]);
        ChildReachable(g, from, obj, c);
      }
      MarkObject(c, g, from, obj, done);
      more := done + Refs([c]);
    }

    /** All of these. */
    method MarkAll(cs: seq<Obj?>, obj: Obj, ghost g: Graph, ghost from: seq<Obj?>, ghost done: set<Obj>)
      returns (ghost more: set<Obj>)
      requires Blackening(g, from, obj, done) && Refs(cs) <= References(obj.body)
      modifies this`grayStack, objs`isMarked
      ensures Blackening(g, from, obj, more) && done + Refs(cs) <= more && MarkedMore()
    {
      hide Vm.Blackening, References, Vm.Unmarked;
      more := done;
      var i := 0;
      while i < |cs|
        invariant 0 <= i <= |cs| && Blackening(g, from, obj, more) && done <= more && MarkedMore()
        invariant Refs(cs[..i]) <= more
      {
        OneMoreRef(cs, i);
        more := MarkChild(cs[i], obj, g, from, more);
        i := i + 1;
      }
      assert cs[..i] == cs;
    }

    /** `markDynamicObjArray` */
    method MarkArray(a: ObjArray, obj: Obj, ghost g: Graph, ghost from: seq<Obj?>, ghost done: set<Obj>)
      returns (ghost more: set<Obj>)
      requires Blackening(g, from, obj, done) && ArrayRefs(a) <= References(obj.body)
      modifies this`grayStack, objs`isMarked
      ensures Blackening(g, from, obj, more) && done + ArrayRefs(a) <= more && MarkedMore()
    {
      hide Vm.Blackening, References, Vm.Unmarked;
      more := MarkChild(a.stash, obj, g, from, done);
      more := MarkAll(a.objects, obj, g, from, more);
    }

    /** `markValue`: the object that it is, and its type. */
    method MarkValue(v: Typed, obj: Obj, ghost g: Graph, ghost from: seq<Obj?>, ghost done: set<Obj>)
      returns (ghost more: set<Obj>)
      requires Blackening(g, from, obj, done) && TypedRefs(v) <= References(obj.body)
      modifies this`grayStack, objs`isMarked
      ensures Blackening(g, from, obj, more) && done + TypedRefs(v) <= more && MarkedMore()
    {
      hide Vm.Blackening, References, Vm.Unmarked;
      PairOfRefs(if v.value.Ref? then v.value.o else null, v.kind);
      more := MarkChild(if v.value.Ref? then v.value.o else null, obj, g, from, done);
      more := MarkChild(v.kind, obj, g, from, more);
    }

    /** `markValueCell` */
    method MarkCell(c: Cell, obj: Obj, ghost g: Graph, ghost from: seq<Obj?>, ghost done: set<Obj>)
      returns (ghost more: set<Obj>)
      requires Blackening(g, from, obj, done) && CellRefs(c) <= References(obj.body)
      modifies this`grayStack, objs`isMarked
      ensures Blackening(g, from, obj, more) && done + CellRefs(c) <= more && MarkedMore()
    {
      hide Vm.Blackening, References, Vm.Unmarked;
      more := MarkValue(c.content, obj, g, from, done);
      more := MarkChild(c.cellType, obj, g, from, more);
    }

    /** The values of `markDynamicValueArray`. */
    method MarkValues(vs: seq<Typed>, obj: Obj, ghost g: Graph, ghost from: seq<Obj?>, ghost done: set<Obj>)
      returns (ghost more: set<Obj>)
      requires Blackening(g, from, obj, done) && AllTyped(vs) <= References(obj.body)
      modifies this`grayStack, objs`isMarked
      ensures Blackening(g, from, obj, more) && done + AllTyped(vs) <= more && MarkedMore()
    {
      hide Vm.Blackening, References, Vm.Unmarked;
      more := done;
      var i := 0;
      while i < |vs|
        invariant 0 <= i <= |vs| && Blackening(g, from, obj, more) && done <= more && MarkedMore()
        invariant forall k :: 0 <= k < i ==> TypedRefs(vs[k]) <= more
      {
        OneOfTyped(vs, i);
        more := MarkValue(vs[i], obj, g, from, more);
        i := i + 1;
      }
    }

    /** `markTable`: keys and values of the entries in use. */
    method MarkTable(ps: seq<Pair>, obj: Obj, ghost g: Graph, ghost from: seq<Obj?>, ghost done: set<Obj>)
      returns (ghost more: set<Obj>)
      requires Blackening(g, from, obj, done) && AllPairs(ps) <= References(obj.body)
      modifies this`grayStack, objs`isMarked
      ensures Blackening(g, from, obj, more) && done + AllPairs(ps) <= more && MarkedMore()
    {
      hide Vm.Blackening, References, Vm.Unmarked;
      more := done;
      var i := 0;
      while i < |ps|
        invariant 0 <= i <= |ps| && Blackening(g, from, obj, more) && done <= more && MarkedMore()
        invariant forall k :: 0 <= k < i ==> PairRefs(ps[k]) <= more
      {
        OneOfPairs(ps, i);
        if ps[i].key != null {
          more := MarkChild(ps[i].key, obj, g, from, more);
          more := MarkValue(ps[i].value, obj, g, from, more);
        }
        i := i + 1;
      }
    }

    /** The slots of a routine, from the bottom up. */
    method MarkStack(stack: seq<Cell>, obj: Obj, ghost g: Graph, ghost from: seq<Obj?>, ghost done: set<Obj>)
      returns (ghost more: set<Obj>)
      requires Blackening(g, from, obj, done) && AllCells(stack) <= References(obj.body)
      modifies this`grayStack, objs`isMarked
      ensures Blackening(g, from, obj, more) && done + AllCells(stack) <= more && MarkedMore()
    {
      hide Vm.Blackening, References, Vm.Unmarked;
      more := done;
      var i := 0;
      while i < |stack|
        invariant 0 <= i <= |stack| && Blackening(g, from, obj, more) && done <= more && MarkedMore()
        invariant forall k :: 0 <= k < i ==> CellRefs(stack[k]) <= more
      {
        OneOfCells(stack, i);
        more := MarkCell(stack[i], obj, g, from, more);
        i := i + 1;
      }
    }

    /** `markRoutine` */
    method MarkRoutine(obj: Obj, ghost g: Graph, ghost from: seq<Obj?>, ghost done: set<Obj>)
      returns (ghost more: set<Obj>)
      requires Blackening(g, from, obj, done) && obj.body.Routine?
      modifies this`grayStack, objs`isMarked
      ensures Blackening(g, from, obj, more) && References(obj.body) <= more && MarkedMore()
    {
      hide Vm.Blackening, Vm.Unmarked, StackRefs, EntryRefs, ArrayRefs;
      var b := obj.body;
      more := MarkFrames(b, obj, g, from, done);
      more := MarkArray(b.slices, obj, g, from, more);
      more := MarkArray(b.errors, obj, g, from, more);
      more := MarkEntry(b, obj, g, from, more);
    }

    /** The slots of a routine, the closures that run on them and the upvalues into them. */
    method MarkFrames(b: Body, obj: Obj, ghost g: Graph, ghost from: seq<Obj?>, ghost done: set<Obj>)
      returns (ghost more: set<Obj>)
      requires Blackening(g, from, obj, done) && b.Routine? && StackRefs(b) <= References(obj.body)
      modifies this`grayStack, objs`isMarked
      ensures Blackening(g, from, obj, more) && done + StackRefs(b) <= more && MarkedMore()
    {
      hide Vm.Blackening, Vm.Unmarked, References, AllCells, Refs;
      more := MarkStack(b.stack, obj, g, from, done);
      more := MarkAll(b.frames, obj, g, from, more);
      more := MarkAll(b.openUpvalues, obj, g, from, more);
    }

    /** What a routine starts from and ends with. */
    method MarkEntry(b: Body, obj: Obj, ghost g: Graph, ghost from: seq<Obj?>, ghost done: set<Obj>)
      returns (ghost more: set<Obj>)
      requires Blackening(g, from, obj, done) && b.Routine? && EntryRefs(b) <= References(obj.body)
      modifies this`grayStack, objs`isMarked
      ensures Blackening(g, from, obj, more) && done + EntryRefs(b) <= more && MarkedMore()
    {
      hide Vm.Blackening, Vm.Unmarked, References, Refs, TypedRefs;
      more := MarkChild(b.entryFunction, obj, g, from, done);
      more := MarkValue(b.entryArg, obj, g, from, more);
      more := MarkValue(b.result, obj, g, from, more);
      more := MarkValue(b.error, obj, g, from, more);
    }

    /** `markChannel`: the values in the channel, along the ring from the oldest. */
    method MarkChannel(obj: Obj, ghost g: Graph, ghost from: seq<Obj?>, ghost done: set<Obj>)
      returns (ghost more: set<Obj>)
      requires Blackening(g, from, obj, done) && obj.body.Channel?
      modifies this`grayStack, objs`isMarked
      ensures Blackening(g, from, obj, more) && References(obj.body) <= more && MarkedMore()
    {
      hide Vm.Blackening, Vm.Unmarked, TypedRefs;
      more := done;
      var b := obj.body;
      if b.buffer != [] {
        var cursor := b.readCursor % |b.buffer|;
        ghost var held := Held(b.buffer, b.readCursor, b.occupied);
        var i := 0;
        while i < b.occupied
          invariant 0 <= i <= b.occupied && cursor == (b.readCursor + i) % |b.buffer|
          invariant Blackening(g, from, obj, more) && done <= more && MarkedMore()
          invariant forall k :: 0 <= k < i ==> TypedRefs(held[k]) <= more
        {
          OneOfTyped(held, i);
          more := MarkValue(b.buffer[cursor], obj, g, from, more);
          NextInRing(b.readCursor + i, |b.buffer|);
          cursor := (cursor + 1) % |b.buffer|;
          i := i + 1;
        }
      }
    }

    /** `blackenObject`: marks everything the object refers to, by its kind. */
    method BlackenObject(obj: Obj, ghost g: Graph, ghost from: seq<Obj?>)
      requires Blackening(g, from, obj, {})
      modifies this`grayStack, objs`isMarked
      ensures Marking(g, from, null, {}) && MarkedMore()
    {
      hide Vm.Blackening, Vm.Unmarked, Refs, TypedRefs, CellRefs, AllTyped, AllPairs, Vm.Marking;
      ghost var more: set<Obj> := {};
      match obj.body {
        case Leaf =>
        case BoundMethod(receiver, bound) =>
          more := MarkValue(receiver, obj, g, from, more);
          more := MarkChild(bound, obj, g, from, more);
        case Class(name, methods) =>
          more := MarkChild(name, obj, g, from, more);
          more := MarkTable(methods, obj, g, from, more);
        case Closure(callee, upvalues) =>
          more := MarkChild(callee, obj, g, from, more);
          more := MarkAll(upvalues, obj, g, from, more);
        case Function(name, constants, stash) =>
          more := MarkChild(name, obj, g, from, more);
          more := MarkValues(constants, obj, g, from, more);
          more := MarkValue(stash, obj, g, from, more);
        case Instance(klass, fields) =>
          more := MarkChild(klass, obj, g, from, more);
          more := MarkTable(fields, obj, g, from, more);
        case Upvalue(closed) => more := MarkCell(closed, obj, g, from, more);
        case Routine(_, _, _, _, _, _, _, _, _) => more := MarkRoutine(obj, g, from, more);
        case Channel(_, _, _) => more := MarkChannel(obj, g, from, more);
        case SyncGroup(channels, results) =>
          more := MarkValue(channels, obj, g, from, more);
          more := MarkValue(results, obj, g, from, more);
        case Map(mapType, entries) =>
          more := MarkChild(mapType, obj, g, from, more);
          more := MarkTable(entries, obj, g, from, more);
        case Tree(parts) => more := MarkAll(parts, obj, g, from, more);
      }
      IsBlack(g, from, obj, more);
    }

    /** An object all of whose references are marked is black. */
    lemma IsBlack(g: Graph, from: seq<Obj?>, obj: Obj, done: set<Obj>)
      requires Blackening(g, from, obj, done) && References(obj.body) <= done
      ensures Marking(g, from, null, {})
    {
      hide Reachable, References;
    }

    /** `traceReferences`: each object is blackened once, so the loop ends. */
    method TraceReferences(ghost g: Graph, ghost from: seq<Obj?>)
      requires Marking(g, from, null, {})
      modifies this`grayStack, objs`isMarked
      ensures Marking(g, from, null, {}) && grayStack == []
      ensures forall o :: o in objs && old(o.isMarked) ==> o.isMarked
    {
      hide Vm.Marking;
      while |grayStack| > 0
        invariant Marking(g, from, null, {})
        invariant forall o :: o in objs && old(o.isMarked) ==> o.isMarked
        decreases Unmarked(), |grayStack|
      {
        var obj := PopGray(g, from);
        BlackenObject(obj, g, from);
      }
    }

    method PopGray(ghost g: Graph, ghost from: seq<Obj?>) returns (obj: Obj)
      requires Marking(g, from, null, {}) && |grayStack| > 0
      modifies this`grayStack
      ensures Blackening(g, from, obj, {})
      ensures |grayStack| < old(|grayStack|)
    {
      hide Reachable;
      ghost var gray := grayStack;
      obj := grayStack[|grayStack| - 1];
      grayStack := grayStack[..|grayStack| - 1];
      assert gray == grayStack + [obj];
    }

    /** `markRoots` */
    method MarkRoots(ghost g: Graph)
      requires Marking(g, AllRoots(), null, {}) && Closed()
      modifies this`grayStack, objs`isMarked
      ensures Marking(g, AllRoots(), null, {})
      ensures forall r: Obj? :: r in AllRoots() && r != null ==> r.isMarked
    {
      hide Vm.Marking, Reachable, Vm.Unmarked;
      var from := roots + tempRoots;
      ghost var none: set<Obj> := {};
      var i := 0;
      while i < |from|
        invariant 0 <= i <= |from| && from == AllRoots()
        invariant Marking(g, from, null, none)
        invariant forall j :: 0 <= j < i && from[j] != null ==> from[j].isMarked
      {
        if from[i] != null {
          RootReachable(g, from, from[i]);
        }
        MarkObject(from[i], g, from, null, none);
        none := none + Refs([from[i]]);
        i := i + 1;
      }
      NoCurrent(g, from, none);
    }

    lemma NoCurrent(g: Graph, from: seq<Obj?>, done: set<Obj>)
      requires Marking(g, from, null, done)
      ensures Marking(g, from, null, {})
    {
      hide Reachable, References;
    }

    /** The list while it is being swept: the kept objects so far, linked up to the rest. */
    ghost predicate Sweeping(all: seq<Obj>, live: set<Obj>, k: nat, previous: Obj?, obj: Obj?)
      reads this`objects, all`next, all`isMarked
    {
      k <= |all| && obj == NodeAt(all, k, null) && LinkedFrom(all, k)
      && (forall i :: k <= i < |all| ==> (all[i].isMarked <==> all[i] in live))
      && var kept := KeepTo(all, live, k);
         && previous == (if |kept| == 0 then null else kept[|kept| - 1])
         && objects == NodeAt(kept, 0, obj)
         && forall i :: 0 <= i < |kept| ==>
              kept[i] in all[..k] && !kept[i].isMarked && kept[i].next == NodeAt(kept, i + 1, obj)
    }

    /** One round of `sweep`. */
    method SweepStep(obj: Obj, previous: Obj?, ghost all: seq<Obj>, ghost live: set<Obj>, ghost k: nat)
      returns (next: Obj?, previous': Obj?)
      requires Distinct(all) && Sweeping(all, live, k, previous, obj)
      modifies this`objects, all`next, all`isMarked
      ensures k < |all| && Sweeping(all, live, k + 1, previous', next)
    {
      hide KeepTo, Distinct, References;
      ghost var kept := KeepTo(all, live, k);
      KeepNext(all, live, k);
      SweepDistinct(all, live, k);
      next := obj.next;
      previous' := previous;
      if obj.isMarked {
        obj.isMarked := false;
        previous' := obj;
        assert KeepTo(all, live, k + 1) == kept + [obj];
      } else {
        if previous != null {
          previous.next := next;
        } else {
          objects := next;
        }
        assert KeepTo(all, live, k + 1) == kept;
      }
    }

    /** `sweep`: unlinks the unmarked objects from the list and clears the other marks. */
    method Sweep(ghost live: set<Obj>)
      requires IsList(objects, objs)
      requires forall i :: 0 <= i < |objs| ==> (objs[i].isMarked <==> objs[i] in live)
      modifies this`objects, this`objs, objs`next, objs`isMarked
      ensures IsList(objects, objs) && objs == Keep(old(objs), live)
      ensures forall o :: o in objs ==> !o.isMarked
    {
      hide Vm.Sweeping, KeepTo, Distinct, Keep;
      ghost var all := objs;
      ghost var k := 0;
      var previous: Obj? := null;
      var obj := objects;
      SweepStart(all, live);
      while obj != null
        invariant 0 <= k <= |all| && Sweeping(all, live, k, previous, obj)
        decreases |all| - k
      {
        obj, previous := SweepStep(obj, previous, all, live, k);
        k := k + 1;
      }
      SweepDone(all, live, k, previous);
      objs := Keep(all, live);
    }

    lemma SweepStart(all: seq<Obj>, live: set<Obj>)
      requires IsList(objects, all)
      requires forall i :: 0 <= i < |all| ==> (all[i].isMarked <==> all[i] in live)
      ensures Sweeping(all, live, 0, null, objects)
    {
    }

    lemma SweepDone(all: seq<Obj>, live: set<Obj>, k: nat, previous: Obj?)
      requires Distinct(all) && Sweeping(all, live, k, previous, null)
      ensures IsList(objects, Keep(all, live))
      ensures forall o :: o in Keep(all, live) ==> !o.isMarked
    {
      hide KeepTo, Distinct;
      assert k == |all|;
      KeepAll(all, live);
    }

    /** `collectGarbage`: what is left is exactly what the roots reach, in the old order; the
        marks are clear, and the string table has forgotten exactly the strings that are gone. */
    method CollectGarbage()
      requires WellFormed()
      modifies this`objects, this`objs, this`grayStack, objs, strings, strings.entries
      ensures WellFormed() && strings.entries == old(strings.entries)
      ensures forall o :: o in old(objs) ==> (o in objs <==> Reachable(old(Snapshot()), old(AllRoots()), o))
      ensures objs == Keep(old(objs), set o | o in objs) && forall o :: o in objs ==> o in old(objs)
      ensures forall o :: o in old(objs) ==> o.body == old(o.body)
      ensures strings.M == map k | k in old(strings.M) && k in objs :: old(strings.M)[k]
    {
      hide Reachable, Keep, Vm.WellFormed, IsList, Vm.StringsOk;
      ghost var all, g, from := objs, Snapshot(), AllRoots();
      ghost var live := MarkPhase();
      SweepPhase(live);
      ExactlyTheLive(all, objs, live);
    }

    /** `tableRemoveWhite` and `sweep`: what was not marked is gone. */
    method SweepPhase(ghost live: set<Obj>)
      requires IsList(objects, objs) && grayStack == [] && StringsOk()
      requires forall i :: 0 <= i < |objs| ==> (objs[i].isMarked <==> objs[i] in live)
      requires forall o :: o in live ==> o in objs
      requires forall r: Obj? :: r in AllRoots() && r != null ==> r in live
      requires forall o, c :: o in live && c in References(o.body) ==> c in live
      modifies this`objects, this`objs, objs`next, objs`isMarked, strings, strings.entries
      ensures WellFormed() && objs == Keep(old(objs), live)
      ensures strings.entries == old(strings.entries)
      ensures strings.M == map k | k in old(strings.M) && k in objs :: old(strings.M)[k]
    {
      hide Keep, Distinct, IsList, ValueTable.Valid, HashString, References;
      ghost var all := objs;
      strings.RemoveWhite();
      Sweep(live);
      KeepAll(all, live);
      forall o, c | o in objs && c in References(o.body) ensures c in objs {
        assert o in live && c in live;
      }
    }

    /** `markRoots` and `traceReferences`: marks exactly the reachable objects. */
    method MarkPhase() returns (ghost live: set<Obj>)
      requires WellFormed()
      modifies this`grayStack, objs`isMarked
      ensures IsList(objects, objs) && grayStack == [] && StringsOk()
      ensures live == set o | o in objs && Reachable(old(Snapshot()), old(AllRoots()), o)
      ensures forall i :: 0 <= i < |objs| ==> (objs[i].isMarked <==> objs[i] in live)
      ensures forall r: Obj? :: r in AllRoots() && r != null ==> r in live
      ensures forall o, c :: o in live && c in References(o.body) ==> c in live
    {
      hide Reachable, Vm.Marking, IsList;
      ghost var g, from := Snapshot(), AllRoots();
      StartMarking(g, from);
      MarkRoots(g);
      TraceReferences(g, from);
      live := Blackened(g, from);
    }

    lemma StartMarking(g: Graph, from: seq<Obj?>)
      requires WellFormed() && g == Snapshot()
      ensures Marking(g, from, null, {})
    {
    }

    /** With nothing left to blacken, the marked objects are exactly the reachable ones. */
    lemma Blackened(g: Graph, from: seq<Obj?>) returns (live: set<Obj>)
      requires Marking(g, from, null, {}) && grayStack == []
      requires forall r: Obj? :: r in from && r != null ==> r in objs && r.isMarked
      ensures live == set o | o in objs && Reachable(g, from, o)
      ensures forall o :: o in objs ==> (o.isMarked <==> o in live) && References(o.body) == g[o]
      ensures forall r: Obj? :: r in from && r != null ==> r in live
      ensures forall o, c :: o in live && c in References(o.body) ==> c in live
    {
      hide Reachable;
      live := set o | o in objs && o.isMarked;
      MarkedIsReachable(g, from, live);
      assert forall o :: o in objs ==> o in g;
    }

    // ---- interned strings ----

    /** `allocateString`: the new string is rooted while the table may still collect. */
    method AllocateString(chars: seq<bv8>, hash: nat, collectFirst: bool, collectInTable: bool) returns (s: Obj)
      requires Valid() && hash == HashString(chars)
      requires forall k :: k in strings.M ==> k.chars != chars
      modifies this, objs, strings, strings.entries
      ensures Valid() && fresh(s) && s.isString && s.chars == chars && s in strings.M
      ensures roots == old(roots) && tempRoots == old(tempRoots)
      ensures forall o :: o in objs ==> o == s || o in old(objs)
      ensures s.body == Leaf && forall o :: o in old(objs) ==> o.body == old(o.body)
      ensures strings.entries == old(strings.entries) || fresh(strings.entries)
      ensures KeepsAll(old(Snapshot()), old(AllRoots()))
    {
      hide Vm.WellFormed, Vm.InternedBut, HashString, Reachable, References;
      ghost var g, from := Snapshot(), AllRoots();
      MaybeCollect(collectFirst, null);
      s := LinkString(chars, hash);
      assert forall i :: 0 <= i < |objs| ==> objs[i] == s || objs[i] in old(objs);
      ghost var g', from' := Snapshot(), AllRoots();
      MaybeCollect(collectInTable, s);
      KeptAgain(g, from, g', from');
      Intern(s);
    }

    /** What one collection kept, and was then still referred to, the next one keeps. */
    lemma KeptAgain(g: Graph, from: seq<Obj?>, g': Graph, from': seq<Obj?>)
      requires forall r: Obj? :: r in from ==> r in from'
      requires forall o :: o in g && Reachable(g, from, o) ==> o in g' && g'[o] == g[o]
      requires KeepsAll(g', from')
      ensures KeepsAll(g, from)
    {
      hide Reachable;
      forall o | o in g && Reachable(g, from, o) ensures o in objs && References(o.body) == g[o] {
        StillReachable(g, from, g', from', o);
      }
    }

    /** An allocation may collect first (`gc_if_needed`); a rooted object survives. */
    method MaybeCollect(collect: bool, s: Obj?)
      requires WellFormed() && InternedBut(s) && (s != null ==> s in tempRoots)
      modifies this`objects, this`objs, this`grayStack, objs, strings, strings.entries
      ensures WellFormed() && InternedBut(s) && (s != null ==> s in objs) && strings.entries == old(strings.entries)
      ensures strings.M.Keys <= old(strings.M).Keys
      ensures forall o :: o in objs ==> o in old(objs)
      ensures forall o :: o in old(objs) ==> o.body == old(o.body)
      ensures KeepsAll(old(Snapshot()), old(AllRoots()))
    {
      hide Vm.WellFormed, References;
      RootsInHeap();
      if collect {
        ghost var g, from := Snapshot(), AllRoots();
        if s != null {
          RootReachable(g, from, s);
        }
        CollectGarbage();
      }
    }

    lemma RootsInHeap()
      requires WellFormed()
      ensures forall r: Obj? :: r in AllRoots() && r != null ==> r in objs
      ensures strings.Valid() && forall k :: k in strings.M ==> k in objs
    {
    }

    /** `tableSet` of a new string, and `tempRootPop`. */
    method Intern(s: Obj)
      requires WellFormed() && InternedBut(s) && s in objs && s.isString && s.hash == HashString(s.chars)
      requires forall k :: k in strings.M ==> k.chars != s.chars
      requires |tempRoots| > 0
      modifies this`tempRoots, strings, strings.entries
      ensures Valid() && s in strings.M && tempRoots == old(tempRoots[..|tempRoots| - 1])
      ensures strings.entries == old(strings.entries) || fresh(strings.entries)
    {
      hide ValueTable.Valid, HashString, IsList, References;
      var _ := strings.Set(s, Nil);
      tempRoots := tempRoots[..|tempRoots| - 1];
    }

    /** `ALLOCATE_OBJ` followed by `tempRootPush`. */
    method LinkString(chars: seq<bv8>, hash: nat) returns (s: Obj)
      requires WellFormed() && InternedBut(null)
      modifies this`objects, this`objs, this`tempRoots
      ensures WellFormed() && InternedBut(s) && fresh(s) && s.isString && s.chars == chars && s.hash == hash
      ensures objs == [s] + old(objs) && tempRoots == old(tempRoots) + [s] && s.body == Leaf
    {
      hide ValueTable.Valid, HashString, References;
      NothingHeld();
      s := new Obj(true, chars, hash, objects);
      objects := s;
      objs := [s] + objs;
      tempRoots := tempRoots + [s];
    }

    lemma NothingHeld()
      ensures References(Leaf) == {} == References(Upvalue(Cell(Typed(Nil, null), null)))
    {
    }

    /** `hashString` */
    method HashChars(chars: seq<bv8>) returns (h: nat)
      ensures h == HashString(chars)
    {
      var hash: bv32 := 2166136261;
      var i := 0;
      while i < |chars|
        invariant 0 <= i <= |chars| && hash == Hash32(chars[..i])
      {
        assert chars[..i + 1][..i] == chars[..i];
        hash := hash ^ (chars[i] as bv32);
        hash := hash + 16777619;
        i := i + 1;
      }
      assert chars[..i] == chars;
      h := hash as int;
    }

    /** `copyString` and `takeString`: the one string object with these contents. */
    method CopyString(chars: seq<bv8>, collectFirst: bool, collectInTable: bool) returns (s: Obj)
      requires Valid()
      modifies this, objs, strings, strings.entries
      ensures Valid() && s.isString && s.chars == chars && s in strings.M
      ensures forall k :: k in old(strings.M) && k.chars == chars ==> s == k && objs == old(objs)
      ensures KeepsAll(old(Snapshot()), old(AllRoots()))
      ensures roots == old(roots) && tempRoots == old(tempRoots)
      ensures s in objs && forall o :: o in objs ==> o in old(objs) || (fresh(o) && o == s && s.body == Leaf)
      ensures forall o :: o in old(objs) ==> o.body == old(o.body)
      ensures strings.entries == old(strings.entries) || fresh(strings.entries)
    {
      hide ValueTable.Valid, HashString, IsList, References;
      var hash := HashChars(chars);
      var interned := strings.FindString(chars, hash);
      if interned != null {
        return interned;
      }
      s := AllocateString(chars, hash, collectFirst, collectInTable);
    }

    /** `newUpvalue`: an object with a cell of its own, which holds nothing yet. */
    method AllocateCell(collect: bool) returns (c: Obj)
      requires Valid()
      modifies this`objects, this`objs, this`grayStack, objs, strings, strings.entries
      ensures Valid() && fresh(c) && !c.isString && c.body == Upvalue(Cell(Typed(Nil, null), null))
      ensures c in objs && forall o :: o in objs ==> o == c || o in old(objs)
      ensures forall o :: o in old(objs) ==> o.body == old(o.body)
      ensures strings.entries == old(strings.entries)
      ensures KeepsAll(old(Snapshot()), old(AllRoots()))
    {
      hide Vm.WellFormed, Vm.InternedBut, References, Reachable;
      MaybeCollect(collect, null);
      c := LinkCell();
    }

    /** `ALLOCATE_OBJ` of an upvalue. */
    method LinkCell() returns (c: Obj)
      requires WellFormed() && InternedBut(null)
      modifies this`objects, this`objs
      ensures WellFormed() && InternedBut(null) && fresh(c) && !c.isString && c.body == Upvalue(Cell(Typed(Nil, null), null))
      ensures objs == [c] + old(objs)
    {
      hide ValueTable.Valid, HashString, References;
      NothingHeld();
      c := new Obj(false, [], 0, objects);
      c.body := Upvalue(Cell(Typed(Nil, null), null));
      objects := c;
      objs := [c] + objs;
    }

    /** The program changes what an object holds. */
    method Store(o: Obj, body: Body)
      requires Valid() && o in objs && forall p :: p in References(body) ==> p in objs
      modifies o`body
      ensures Valid() && o.body == body
    {
      hide ValueTable.Valid, HashString, IsList, References;
      o.body := body;
    }

    /** The program changes which objects it holds itself. */
    method Hold(newRoots: seq<Obj?>)
      requires Valid() && forall c: Obj? :: c in newRoots && c != null ==> c in objs
      modifies this`roots
      ensures Valid() && roots == newRoots
    {
      hide ValueTable.Valid, HashString, IsList, References;
      roots := newRoots;
    }

    /** Interned strings are the same object exactly when they have the same contents. */
    lemma PointerEqualityIsContentEquality(a: Obj, b: Obj)
      requires Valid() && a in objs && b in objs && a.isString && b.isString
      ensures a == b <==> a.chars == b.chars
    {
    }
  }

  lemma OneMoreRef(xs: seq<Obj?>, i: nat)
    requires i < |xs|
    ensures Refs(xs[..i + 1]) == Refs(xs[..i]) + Refs([xs[i]]) && Refs([xs[i]]) <= Refs(xs)
  {
    assert xs[..i + 1] == xs[..i] + [xs[i]];
  }

  lemma PairOfRefs(a: Obj?, b: Obj?)
    ensures Refs([a, b]) == Refs([a]) + Refs([b])
  {
  }

  lemma OneOfTyped(vs: seq<Typed>, i: nat)
    requires i < |vs|
    ensures TypedRefs(vs[i]) <= AllTyped(vs)
  {
  }

  lemma OneOfPairs(ps: seq<Pair>, i: nat)
    requires i < |ps|
    ensures PairRefs(ps[i]) <= AllPairs(ps)
    ensures ps[i].key != null ==> Refs([ps[i].key]) + TypedRefs(ps[i].value) == PairRefs(ps[i])
  {
  }

  lemma OneOfCells(cs: seq<Cell>, i: nat)
    requires i < |cs|
    ensures CellRefs(cs[i]) <= AllCells(cs)
  {
  }

  lemma NextInRing(i: nat, n: nat)
    requires 0 < n
    ensures (i % n + 1) % n == (i + 1) % n
  {
    var q, r := i / n, i % n;
    Digits.QuotientUnique(i, n, q, r);
    OneFurther(i, n, q, r);
    OneFurther(r, n, 0, r);
  }

  lemma OneFurther(i: nat, n: nat, q: nat, r: nat)
    requires i == r + q * n && r < n
    ensures (i + 1) % n == if r + 1 < n then r + 1 else 0
  {
    if r + 1 < n {
      Digits.QuotientUnique(i + 1, n, q, r + 1);
    } else {
      OneMoreTime(q, n);
      Digits.QuotientUnique(i + 1, n, q + 1, 0);
    }
  }

  lemma OneMoreTime(q: nat, n: nat)
    ensures (q + 1) * n == q * n + n
  {
  }

  lemma SweepDistinct(all: seq<Obj>, s: set<Obj>, k: nat)
    requires Distinct(all) && k < |all|
    ensures forall j :: k < j < |all| ==> all[k] != all[j]
    ensures var kept := KeepTo(all, s, k);
            && (forall i :: 0 <= i < |kept| - 1 ==> kept[i] != kept[|kept| - 1])
            && (forall i, j :: 0 <= i < |kept| && k <= j < |all| ==> kept[i] != all[j])
  {
    KeepElements(all, s, k);
  }

  lemma KeepAll(objs: seq<Obj>, s: set<Obj>)
    ensures Keep(objs, s) == KeepTo(objs, s, |objs|)
    ensures forall o :: o in Keep(objs, s) <==> o in objs && o in s
    ensures Distinct(objs) ==> Distinct(Keep(objs, s))
  {
    KeepElements(objs, s, |objs|);
    assert objs[..|objs|] == objs;
  }

  lemma ExactlyTheLive(all: seq<Obj>, kept: seq<Obj>, live: set<Obj>)
    requires kept == Keep(all, live) && forall o :: o in live ==> o in all
    ensures kept == Keep(all, set o | o in kept)
    ensures forall o :: o in kept <==> o in live
    ensures forall o :: o in kept ==> o in all
  {
    hide Keep;
    KeepAll(all, live);
    assert (set o | o in kept) == live;
  }

  lemma KeepNext(objs: seq<Obj>, s: set<Obj>, k: nat)
    requires k < |objs|
    ensures KeepTo(objs, s, k + 1) == KeepTo(objs, s, k) + if objs[k] in s then [objs[k]] else []
  {
  }

  /** With nothing left to blacken, the marked objects are exactly the reachable ones. */
  lemma MarkedIsReachable(g: Graph, from: seq<Obj?>, live: set<Obj>)
    requires forall r: Obj? :: r in from && r != null ==> r in live
    requires forall o, c :: o in live && o in g && c in g[o] ==> c in live
    requires forall o :: o in live ==> Reachable(g, from, o)
    ensures forall o :: o in g ==> (o in live <==> Reachable(g, from, o))
  {
    forall o | o in g && Reachable(g, from, o)
      ensures o in live
    {
      var n: nat :| o in Within(g, from, n);
      ClosedHoldsAll(g, from, live, n);
    }
  }
}
