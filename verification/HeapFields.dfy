/** What a collection keeps, said of the fields of objects: whatever a live object names is there, kind by
    kind, and nothing is kept that could have gone. */
module HeapFields {
  import opened Objects
  import opened Reachability
  import opened Heap

  // ---- what each kind of object refers to ----

  lemma ValueRefers(v: Typed, c: Obj)
    ensures c in TypedRefs(v) <==> v.value == Ref(c) || v.kind == c
  {
    var o := if v.value.Ref? then v.value.o else null;
    assert [o, v.kind][0] == o && [o, v.kind][1] == v.kind;
  }

  lemma CellRefers(cell: Cell, c: Obj)
    ensures c in CellRefs(cell) <==> cell.content.value == Ref(c) || cell.content.kind == c || cell.cellType == c
  {
    ValueRefers(cell.content, c);
    assert [cell.cellType][0] == cell.cellType;
  }

  lemma One(x: Obj?, c: Obj)
    ensures c in Refs([x]) <==> x == c
  {
    assert [x][0] == x;
  }

  lemma EntriesRefer(ps: seq<Pair>, c: Obj)
    ensures c in AllPairs(ps) <==>
            exists i :: 0 <= i < |ps| && ps[i].key != null &&
                        (ps[i].key == c || ps[i].value.value == Ref(c) || ps[i].value.kind == c)
  {
    hide TypedRefs;
    forall i | 0 <= i < |ps| ensures c in TypedRefs(ps[i].value) <==> ps[i].value.value == Ref(c) || ps[i].value.kind == c {
      ValueRefers(ps[i].value, c);
    }
    if c in AllPairs(ps) {
      var i :| 0 <= i < |ps| && c in PairRefs(ps[i]);
      assert ps[i].key != null;
    }
    if i :| 0 <= i < |ps| && ps[i].key != null && (ps[i].key == c || ps[i].value.value == Ref(c) || ps[i].value.kind == c) {
      assert c in PairRefs(ps[i]);
    }
  }

  lemma ValuesRefer(vs: seq<Typed>, c: Obj)
    ensures c in AllTyped(vs) <==> exists i :: 0 <= i < |vs| && (vs[i].value == Ref(c) || vs[i].kind == c)
  {
    hide TypedRefs;
    forall i | 0 <= i < |vs| ensures c in TypedRefs(vs[i]) <==> vs[i].value == Ref(c) || vs[i].kind == c {
      ValueRefers(vs[i], c);
    }
  }

  lemma SlotsRefer(cs: seq<Cell>, c: Obj)
    ensures c in AllCells(cs) <==>
            exists i :: 0 <= i < |cs| && (cs[i].content.value == Ref(c) || cs[i].content.kind == c || cs[i].cellType == c)
  {
    hide CellRefs;
    forall i | 0 <= i < |cs|
      ensures c in CellRefs(cs[i]) <==> cs[i].content.value == Ref(c) || cs[i].content.kind == c || cs[i].cellType == c
    {
      CellRefers(cs[i], c);
    }
  }

  lemma LeafRefers(c: Obj)
    ensures c !in References(Leaf)
  {
  }

  lemma BoundMethodRefers(receiver: Typed, bound: Obj?, c: Obj)
    ensures c in References(BoundMethod(receiver, bound)) <==> receiver.value == Ref(c) || receiver.kind == c || bound == c
  {
    ValueRefers(receiver, c);
    One(bound, c);
  }

  lemma ClassRefers(name: Obj?, methods: seq<Pair>, c: Obj)
    ensures c in References(Class(name, methods)) <==>
            || name == c
            || exists i :: 0 <= i < |methods| && methods[i].key != null &&
                           (methods[i].key == c || methods[i].value.value == Ref(c) || methods[i].value.kind == c)
  {
    hide AllPairs;
    One(name, c);
    EntriesRefer(methods, c);
  }

  lemma ClosureRefers(callee: Obj?, upvalues: seq<Obj?>, c: Obj)
    ensures c in References(Closure(callee, upvalues)) <==> callee == c || exists i :: 0 <= i < |upvalues| && upvalues[i] == c
  {
    One(callee, c);
  }

  lemma FunctionRefers(name: Obj?, constants: seq<Typed>, stash: Typed, c: Obj)
    ensures c in References(Function(name, constants, stash)) <==>
            || name == c || stash.value == Ref(c) || stash.kind == c
            || exists i :: 0 <= i < |constants| && (constants[i].value == Ref(c) || constants[i].kind == c)
  {
    hide AllTyped, TypedRefs;
    One(name, c);
    ValueRefers(stash, c);
    ValuesRefer(constants, c);
  }

  lemma InstanceRefers(klass: Obj?, fields: seq<Pair>, c: Obj)
    ensures c in References(Instance(klass, fields)) <==>
            || klass == c
            || exists i :: 0 <= i < |fields| && fields[i].key != null &&
                           (fields[i].key == c || fields[i].value.value == Ref(c) || fields[i].value.kind == c)
  {
    hide AllPairs;
    One(klass, c);
    EntriesRefer(fields, c);
  }

  lemma UpvalueRefers(closed: Cell, c: Obj)
    ensures c in References(Upvalue(closed)) <==>
            closed.content.value == Ref(c) || closed.content.kind == c || closed.cellType == c
  {
    CellRefers(closed, c);
  }

  lemma RoutineRefers(b: Body, c: Obj)
    requires b.Routine?
    ensures c in References(b) <==>
            || (exists i :: 0 <= i < |b.stack| && (b.stack[i].content.value == Ref(c) || b.stack[i].content.kind == c
                                                   || b.stack[i].cellType == c))
            || (exists i :: 0 <= i < |b.frames| && b.frames[i] == c)
            || (exists i :: 0 <= i < |b.openUpvalues| && b.openUpvalues[i] == c)
            || b.slices.stash == c || (exists i :: 0 <= i < |b.slices.objects| && b.slices.objects[i] == c)
            || b.errors.stash == c || (exists i :: 0 <= i < |b.errors.objects| && b.errors.objects[i] == c)
            || b.entryFunction == c || b.entryArg.value == Ref(c) || b.entryArg.kind == c
            || b.result.value == Ref(c) || b.result.kind == c || b.error.value == Ref(c) || b.error.kind == c
  {
    hide AllCells, TypedRefs;
    SlotsRefer(b.stack, c);
    One(b.slices.stash, c);
    One(b.errors.stash, c);
    One(b.entryFunction, c);
    ValueRefers(b.entryArg, c);
    ValueRefers(b.result, c);
    ValueRefers(b.error, c);
    assert c in Refs(b.frames) <==> c in b.frames;
    assert c in Refs(b.openUpvalues) <==> c in b.openUpvalues;
    assert c in Refs(b.slices.objects) <==> c in b.slices.objects;
    assert c in Refs(b.errors.objects) <==> c in b.errors.objects;
  }

  /** The values in a channel are those from its read cursor on, around the ring. */
  lemma HeldAt(buffer: seq<Typed>, readCursor: nat, occupied: nat, k: nat)
    requires buffer != [] && k < occupied
    ensures |Held(buffer, readCursor, occupied)| == occupied
    ensures Held(buffer, readCursor, occupied)[k] == buffer[(readCursor + k) % |buffer|]
  {
  }

  lemma ChannelRefers(buffer: seq<Typed>, readCursor: nat, occupied: nat, c: Obj)
    ensures var held := Held(buffer, readCursor, occupied);
            c in References(Channel(buffer, readCursor, occupied)) <==>
            exists k :: 0 <= k < |held| && (held[k].value == Ref(c) || held[k].kind == c)
  {
    hide AllTyped, Held;
    ValuesRefer(Held(buffer, readCursor, occupied), c);
  }

  lemma SyncGroupRefers(channels: Typed, results: Typed, c: Obj)
    ensures c in References(SyncGroup(channels, results)) <==>
            channels.value == Ref(c) || channels.kind == c || results.value == Ref(c) || results.kind == c
  {
    ValueRefers(channels, c);
    ValueRefers(results, c);
  }

  lemma MapRefers(mapType: Obj?, entries: seq<Pair>, c: Obj)
    ensures c in References(Map(mapType, entries)) <==>
            || mapType == c
            || exists i :: 0 <= i < |entries| && entries[i].key != null &&
                           (entries[i].key == c || entries[i].value.value == Ref(c) || entries[i].value.kind == c)
  {
    hide AllPairs;
    One(mapType, c);
    EntriesRefer(entries, c);
  }

  lemma TreeRefers(parts: seq<Obj?>, c: Obj)
    ensures c in References(Tree(parts)) <==> exists i :: 0 <= i < |parts| && parts[i] == c
  {
  }

  // ---- what is there after a collection ----

  /** Nothing, or an object of the heap. */
  predicate There(x: Obj?, objs: seq<Obj>) {
    x == null || x in objs
  }

  predicate ValueThere(v: Typed, objs: seq<Obj>) {
    (v.value.Ref? ==> v.value.o in objs) && There(v.kind, objs)
  }

  predicate EntryThere(p: Pair, objs: seq<Obj>) {
    p.key != null ==> p.key in objs && ValueThere(p.value, objs)
  }

  predicate CellThere(c: Cell, objs: seq<Obj>) {
    ValueThere(c.content, objs) && There(c.cellType, objs)
  }

  lemma NamedIsThere(vm: Vm, o: Obj, c: Obj)
    requires vm.WellFormed() && o in vm.objs && c in References(o.body)
    ensures c in vm.objs
  {
  }

  /** In every heap that is ready for a collection, or has just had one, the fields of every object hold
      objects of the heap. */
  lemma FieldsAreThere(vm: Vm, o: Obj)
    requires vm.WellFormed() && o in vm.objs
    ensures var b, objs := o.body, vm.objs;
            match b
            case Leaf => true
            case BoundMethod(receiver, bound) => ValueThere(receiver, objs) && There(bound, objs)
            case Class(name, methods) => There(name, objs) && forall i :: 0 <= i < |methods| ==> EntryThere(methods[i], objs)
            case Closure(callee, upvalues) => There(callee, objs) && forall i :: 0 <= i < |upvalues| ==> There(upvalues[i], objs)
            case Function(name, constants, stash) =>
              There(name, objs) && ValueThere(stash, objs) && forall i :: 0 <= i < |constants| ==> ValueThere(constants[i], objs)
            case Instance(klass, fields) => There(klass, objs) && forall i :: 0 <= i < |fields| ==> EntryThere(fields[i], objs)
            case Upvalue(closed) => CellThere(closed, objs)
            case Routine(stack, frames, openUpvalues, slices, errors, entryFunction, entryArg, result, error) =>
              && (forall i :: 0 <= i < |stack| ==> CellThere(stack[i], objs))
              && (forall i :: 0 <= i < |frames| ==> There(frames[i], objs))
              && (forall i :: 0 <= i < |openUpvalues| ==> There(openUpvalues[i], objs))
              && There(slices.stash, objs) && (forall i :: 0 <= i < |slices.objects| ==> There(slices.objects[i], objs))
              && There(errors.stash, objs) && (forall i :: 0 <= i < |errors.objects| ==> There(errors.objects[i], objs))
              && There(entryFunction, objs) && ValueThere(entryArg, objs) && ValueThere(result, objs) && ValueThere(error, objs)
            case Channel(buffer, readCursor, occupied) =>
              var held := Held(buffer, readCursor, occupied); forall i :: 0 <= i < |held| ==> ValueThere(held[i], objs)
            case SyncGroup(channels, results) => ValueThere(channels, objs) && ValueThere(results, objs)
            case Map(mapType, entries) => There(mapType, objs) && forall i :: 0 <= i < |entries| ==> EntryThere(entries[i], objs)
            case Tree(parts) => forall i :: 0 <= i < |parts| ==> There(parts[i], objs)
  {
    hide Vm.WellFormed, Held, AllTyped, AllPairs, AllCells, TypedRefs, CellRefs, Refs, There, ValueThere, CellThere, EntryThere;
    var objs := vm.objs;
    forall c: Obj | c in References(o.body) ensures c in objs {
      NamedIsThere(vm, o, c);
    }
    match o.body
    case Leaf =>
    case BoundMethod(receiver, bound) =>
      ValueIsThere(receiver, objs);
      RefsAreThere([bound], objs);
    case Class(name, methods) =>
      RefsAreThere([name], objs);
      EntriesAreThere(methods, objs);
    case Closure(callee, upvalues) =>
      RefsAreThere([callee], objs);
      RefsAreThere(upvalues, objs);
    case Function(name, constants, stash) =>
      RefsAreThere([name], objs);
      ValueIsThere(stash, objs);
      ValuesAreThere(constants, objs);
    case Instance(klass, fields) =>
      RefsAreThere([klass], objs);
      EntriesAreThere(fields, objs);
    case Upvalue(closed) => CellIsThere(closed, objs);
    case Routine(stack, frames, openUpvalues, slices, errors, entryFunction, entryArg, result, error) =>
      SlotsAreThere(stack, objs);
      RefsAreThere(frames, objs);
      RefsAreThere(openUpvalues, objs);
      RefsAreThere([slices.stash], objs);
      RefsAreThere(slices.objects, objs);
      RefsAreThere([errors.stash], objs);
      RefsAreThere(errors.objects, objs);
      RefsAreThere([entryFunction], objs);
      ValueIsThere(entryArg, objs);
      ValueIsThere(result, objs);
      ValueIsThere(error, objs);
    case Channel(buffer, readCursor, occupied) => ValuesAreThere(Held(buffer, readCursor, occupied), objs);
    case SyncGroup(channels, results) =>
      ValueIsThere(channels, objs);
      ValueIsThere(results, objs);
    case Map(mapType, entries) =>
      RefsAreThere([mapType], objs);
      EntriesAreThere(entries, objs);
    case Tree(parts) => RefsAreThere(parts, objs);
  }

  lemma RefsAreThere(xs: seq<Obj?>, objs: seq<Obj>)
    requires forall c :: c in Refs(xs) ==> c in objs
    ensures forall i :: 0 <= i < |xs| ==> There(xs[i], objs)
    ensures |xs| == 1 ==> There(xs[0], objs)
  {
    forall i | 0 <= i < |xs| ensures There(xs[i], objs) {
      if xs[i] != null {
        assert xs[i] in Refs(xs);
      }
    }
  }

  lemma ValueIsThere(v: Typed, objs: seq<Obj>)
    requires forall c :: c in TypedRefs(v) ==> c in objs
    ensures ValueThere(v, objs)
  {
    hide TypedRefs;
    if v.value.Ref? {
      ValueRefers(v, v.value.o);
    }
    if v.kind != null {
      ValueRefers(v, v.kind);
    }
  }

  lemma ValuesAreThere(vs: seq<Typed>, objs: seq<Obj>)
    requires forall c :: c in AllTyped(vs) ==> c in objs
    ensures forall i :: 0 <= i < |vs| ==> ValueThere(vs[i], objs)
  {
    hide TypedRefs, ValueThere;
    forall i | 0 <= i < |vs| ensures ValueThere(vs[i], objs) {
      ValueIsThere(vs[i], objs);
    }
  }

  lemma EntriesAreThere(ps: seq<Pair>, objs: seq<Obj>)
    requires forall c :: c in AllPairs(ps) ==> c in objs
    ensures forall i :: 0 <= i < |ps| ==> EntryThere(ps[i], objs)
  {
    hide TypedRefs, ValueThere;
    forall i | 0 <= i < |ps| ensures EntryThere(ps[i], objs) {
      if ps[i].key != null {
        assert PairRefs(ps[i]) <= AllPairs(ps);
        ValueIsThere(ps[i].value, objs);
      }
    }
  }

  lemma CellIsThere(c: Cell, objs: seq<Obj>)
    requires forall x :: x in CellRefs(c) ==> x in objs
    ensures CellThere(c, objs)
  {
    hide TypedRefs, ValueThere, There, Refs;
    ValueIsThere(c.content, objs);
    RefsAreThere([c.cellType], objs);
  }

  lemma SlotsAreThere(cs: seq<Cell>, objs: seq<Obj>)
    requires forall c :: c in AllCells(cs) ==> c in objs
    ensures forall i :: 0 <= i < |cs| ==> CellThere(cs[i], objs)
  {
    hide CellRefs, CellThere;
    forall i | 0 <= i < |cs| ensures CellThere(cs[i], objs) {
      CellIsThere(cs[i], objs);
    }
  }

  // ---- and nothing else ----

  /** The set holds the roots and what its members refer to. */
  ghost predicate ClosedFrom(s: set<Obj>, g: Graph, roots: seq<Obj?>) {
    && (forall r: Obj? :: r in roots && r != null ==> r in s)
    && (forall p, c :: p in s && p in g && c in g[p] ==> c in s)
  }

  /** Reachable is what every such set has. */
  lemma ReachableIsLeast(g: Graph, roots: seq<Obj?>, o: Obj)
    requires forall p, c :: p in g && c in g[p] ==> c in g
    ensures Reachable(g, roots, o) <==>
            forall s: set<Obj> :: ClosedFrom(s, g, roots) ==> o in s
  {
    hide Reachable;
    if Reachable(g, roots, o) {
      forall s: set<Obj> | ClosedFrom(s, g, roots) ensures o in s
      {
        InEverySet(g, roots, o, s);
      }
    } else {
      var s := set p | p in g && Reachable(g, roots, p);
      var all := s + set r: Obj | r in roots;
      forall r: Obj? | r in roots && r != null ensures r in all {
      }
      forall p, c | p in all && p in g && c in g[p] ensures c in all {
        if p in roots {
          RootReachable(g, roots, p);
        }
        ChildReachable(g, roots, p, c);
      }
      if o in roots {
        RootReachable(g, roots, o);
      }
      assert ClosedFrom(all, g, roots) && o !in all;
    }
  }

  lemma InEverySet(g: Graph, roots: seq<Obj?>, o: Obj, s: set<Obj>)
    requires Reachable(g, roots, o) && ClosedFrom(s, g, roots)
    ensures o in s
  {
    var n: nat :| o in Within(g, roots, n);
    ClosedHoldsAll(g, roots, s, n);
  }

  /** A collection that keeps captured variables: a closure that the program holds keeps its function and
      its upvalues, and an upvalue what it holds. */
  method CollectWithClosure(vm: Vm, closure: Obj, r: nat)
    requires vm.WellFormed() && closure in vm.objs && closure.body.Closure? && r < |vm.roots| && vm.roots[r] == closure
    modifies vm`objects, vm`objs, vm`grayStack, vm.objs, vm.strings, vm.strings.entries
    ensures vm.WellFormed() && closure in vm.objs && closure.body == old(closure.body)
    ensures forall k :: 0 <= k < |closure.body.upvalues| && closure.body.upvalues[k] != null ==>
              closure.body.upvalues[k] in vm.objs
    ensures closure.body.callee != null ==> closure.body.callee in vm.objs
  {
    hide Vm.WellFormed, Reachable, References, Keep;
    ghost var g, from := vm.Snapshot(), vm.AllRoots();
    assert vm.roots[r] in from;
    RootReachable(g, from, closure);
    vm.CollectGarbage();
    FieldsAreThere(vm, closure);
  }
}
