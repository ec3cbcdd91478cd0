/** What a program can see of its heap: nothing of collections, and nothing of which strings have come
    and gone.  A program that makes strings and cells, stores and fetches references and compares them
    gives what it would give on a heap that is never collected. */
module Mutator {
  import opened Objects
  import opened Heap

  /** A step of a program on its registers, and when a collection may come with it. */
  datatype Op =
    | Text(r: nat, chars: seq<bv8>, collectFirst: bool, collectInTable: bool)    // the string with these contents
    | NewCell(r: nat, collect: bool)
    | Put(r: nat, s: nat)                            // the cell in `r` now holds what is in `s`
    | Get(r: nat, s: nat)                            // `r` now holds what is in the cell in `s`
    | Clear(r: nat)
    | Compare(r: nat, s: nat)                        // whether they hold the same object
    | Collect

  // ---- a heap that is never collected ----

  /** A string is its contents; cells are numbered as they are made. */
  datatype Thing = Nothing | Contents(chars: seq<bv8>) | CellNumber(id: nat)

  datatype Ideal = Ideal(registers: seq<Thing>, cells: seq<Thing>, out: seq<bool>)

  /** Registers that are not there are left alone, and so is what is no cell. */
  function Does(op: Op, s: Ideal): Ideal {
    var n := |s.registers|;
    match op
    case Text(r, chars, _, _) => if r < n then s.(registers := s.registers[r := Contents(chars)]) else s
    case NewCell(r, _) =>
      if r < n then s.(registers := s.registers[r := CellNumber(|s.cells|)], cells := s.cells + [Nothing]) else s
    case Put(r, x) =>
      if r < n && x < n && s.registers[r].CellNumber? && s.registers[r].id < |s.cells|
      then s.(cells := s.cells[s.registers[r].id := s.registers[x]])
      else s
    case Get(r, x) =>
      if r < n && x < n && s.registers[x].CellNumber? && s.registers[x].id < |s.cells|
      then s.(registers := s.registers[r := s.cells[s.registers[x].id]])
      else s
    case Clear(r) => if r < n then s.(registers := s.registers[r := Nothing]) else s
    case Compare(r, x) => if r < n && x < n then s.(out := s.out + [s.registers[r] == s.registers[x]]) else s
    case Collect => s
  }

  function DoesAll(ops: seq<Op>, s: Ideal): Ideal
    decreases |ops|
  {
    if ops == [] then s else DoesAll(ops[1..], Does(ops[0], s))
  }

  // ---- the same on the real heap ----

  function Content(b: Body): Obj? {
    if b.Upvalue? && b.closed.content.value.Ref? then b.closed.content.value.o else null
  }

  function Holding(x: Obj?): Body {
    Upvalue(Cell(Typed(if x == null then Nil else Ref(x), null), null))
  }

  lemma HoldingRefers(x: Obj?)
    ensures References(Holding(x)) == Refs([x]) && Content(Holding(x)) == x
  {
  }

  /** The ideal counterpart of each object. */
  type Names = map<Obj, Thing>

  function NameOf(names: Names, x: Obj?): Thing {
    if x != null && x in names then names[x] else Nothing
  }

  /** The object, holding this, is what its name says. */
  predicate IsNamed(o: Obj, body: Body, names: Names, s: Ideal) {
    && o in names
    && if o.isString then names[o] == Contents(o.chars) && body == Leaf
       else
         && names[o].CellNumber? && names[o].id < |s.cells| && body == Holding(Content(body))
         && (Content(body) != null ==> Content(body) in names)
         && NameOf(names, Content(body)) == s.cells[names[o].id]
  }

  type Bodies = map<Obj, Body>

  predicate AllNamed(bodies: Bodies, names: Names, s: Ideal) {
    && (forall o :: o in bodies ==> IsNamed(o, bodies[o], names, s))
    && (forall o, p :: o in bodies && p in bodies && names[o] == names[p] ==> o == p)
  }

  ghost function BodiesOf(vm: Vm): Bodies
    reads vm, vm.objs
  {
    map o | o in vm.objs :: o.body
  }

  predicate Registered(roots: seq<Obj?>, bodies: Bodies, names: Names, s: Ideal) {
    && |roots| == |s.registers|
    && forall r :: 0 <= r < |roots| ==>
         s.registers[r] == NameOf(names, roots[r]) && (roots[r] != null ==> roots[r] in bodies)
  }

  /** The heap holds what the ideal one does, as far as the program can get at it. */
  ghost predicate Simulates(vm: Vm, names: Names, s: Ideal)
    reads vm, vm.objs, vm.strings, vm.strings.entries
  {
    && vm.Valid() && vm.tempRoots == []
    && AllNamed(BodiesOf(vm), names, s) && Registered(vm.roots, BodiesOf(vm), names, s)
  }

  /** Objects that have gone are not missed. */
  lemma Fewer(before: Bodies, after: Bodies, names: Names, s: Ideal)
    requires AllNamed(before, names, s) && forall o :: o in after ==> o in before && after[o] == before[o]
    ensures AllNamed(after, names, s)
  {
  }

  /** A string that has been made, or found. */
  lemma TextNamed(before: Bodies, after: Bodies, o: Obj, names: Names, s: Ideal)
    requires AllNamed(before, names, s) && o in after && o.isString && (o in before || o !in names)
    requires forall p :: p in after ==> (p in before && after[p] == before[p]) || (p == o && after[p] == Leaf)
    requires forall p :: p in after && p.isString && p.chars == o.chars ==> p == o
    ensures AllNamed(after, names[o := Contents(o.chars)], s)
    ensures forall p: Obj :: p in before ==> names[o := Contents(o.chars)][p] == names[p]
  {
    hide Holding, Content;
    var names' := names[o := Contents(o.chars)];
    forall p | p in after ensures IsNamed(p, after[p], names', s) {
      assert p in before ==> IsNamed(p, before[p], names, s);
    }
  }

  /** A cell that has been made. */
  lemma CellNamed(before: Bodies, after: Bodies, c: Obj, names: Names, s: Ideal)
    requires AllNamed(before, names, s) && c in after && !c.isString && c !in names
    requires forall p :: p in after ==> (p in before && after[p] == before[p]) || (p == c && after[p] == Holding(null))
    ensures AllNamed(after, names[c := CellNumber(|s.cells|)], s.(cells := s.cells + [Nothing]))
  {
    var names', s' := names[c := CellNumber(|s.cells|)], s.(cells := s.cells + [Nothing]);
    forall p | p in after ensures IsNamed(p, after[p], names', s') {
      assert p in before ==> IsNamed(p, before[p], names, s);
    }
  }

  /** A cell that holds something else. */
  lemma PutNamed(before: Bodies, after: Bodies, c: Obj, x: Obj?, names: Names, s: Ideal)
    requires AllNamed(before, names, s) && c in before && !c.isString && (x != null ==> x in before)
    requires after == before[c := Holding(x)]
    ensures names[c].CellNumber? && names[c].id < |s.cells|
    ensures AllNamed(after, names, s.(cells := s.cells[names[c].id := NameOf(names, x)]))
  {
    assert IsNamed(c, before[c], names, s);
    HoldingRefers(x);
    var s' := s.(cells := s.cells[names[c].id := NameOf(names, x)]);
    forall p | p in after ensures IsNamed(p, after[p], names, s') {
      assert p in before && IsNamed(p, before[p], names, s);
    }
  }

  /** Registers hold the same object exactly when they should. */
  lemma SameThing(roots: seq<Obj?>, bodies: Bodies, names: Names, s: Ideal, r: nat, x: nat)
    requires AllNamed(bodies, names, s) && Registered(roots, bodies, names, s) && r < |roots| && x < |roots|
    ensures roots[r] == roots[x] <==> s.registers[r] == s.registers[x]
  {
    assert roots[r] != null ==> IsNamed(roots[r], bodies[roots[r]], names, s);
    assert roots[x] != null ==> IsNamed(roots[x], bodies[roots[x]], names, s);
  }

  /** A register holds a cell exactly when it should. */
  lemma CellThere(roots: seq<Obj?>, bodies: Bodies, names: Names, s: Ideal, r: nat)
    requires AllNamed(bodies, names, s) && Registered(roots, bodies, names, s) && r < |roots|
    ensures roots[r] != null && !roots[r].isString <==> s.registers[r].CellNumber?
    ensures s.registers[r].CellNumber? ==> s.registers[r].id < |s.cells| && bodies[roots[r]] == Holding(Content(bodies[roots[r]]))
    ensures s.registers[r].CellNumber? ==> s.cells[s.registers[r].id] == NameOf(names, Content(bodies[roots[r]]))
  {
    assert roots[r] != null ==> IsNamed(roots[r], bodies[roots[r]], names, s);
  }

  lemma RootsAreObjects(vm: Vm)
    requires vm.Valid()
    ensures forall r :: 0 <= r < |vm.roots| && vm.roots[r] != null ==> vm.roots[r] in vm.objs
  {
    forall r | 0 <= r < |vm.roots| && vm.roots[r] != null ensures vm.roots[r] in vm.objs {
      assert vm.roots[r] in vm.roots + vm.tempRoots;
    }
  }

  /** Registers with the same objects have the same names, when nothing was renamed. */
  lemma RegistersStay(roots: seq<Obj?>, before: Bodies, after: Bodies, names: Names, names': Names, s: Ideal, s': Ideal)
    requires Registered(roots, before, names, s) && s'.registers == s.registers
    requires forall r :: 0 <= r < |roots| && roots[r] != null ==> roots[r] in after
    requires forall o :: o in before && o in names ==> o in names' && names'[o] == names[o]
    requires forall o :: o in before ==> o in names
    ensures Registered(roots, after, names', s')
  {
  }

  lemma Named(bodies: Bodies, names: Names, s: Ideal)
    requires AllNamed(bodies, names, s)
    ensures forall o :: o in bodies ==> o in names
  {
    forall o | o in bodies ensures o in names {
      assert IsNamed(o, bodies[o], names, s);
    }
  }

  lemma SameCells(bodies: Bodies, names: Names, s: Ideal, s': Ideal)
    requires AllNamed(bodies, names, s) && s'.cells == s.cells
    ensures AllNamed(bodies, names, s')
  {
    forall o | o in bodies ensures IsNamed(o, bodies[o], names, s') {
      assert IsNamed(o, bodies[o], names, s);
    }
  }

  method SetRegister(vm: Vm, r: nat, x: Obj?, ghost names: Names, ghost s: Ideal)
    requires Simulates(vm, names, s) && r < |vm.roots| && (x != null ==> x in vm.objs)
    modifies vm`roots
    ensures Simulates(vm, names, s.(registers := s.registers[r := NameOf(names, x)]))
  {
    hide Vm.Valid, References, IsNamed, NameOf;
    RootsAreObjects(vm);
    SameCells(BodiesOf(vm), names, s, s.(registers := s.registers[r := NameOf(names, x)]));
    vm.Hold(vm.roots[r := x]);
  }

  method DoText(vm: Vm, op: Op, ghost names: Names, ghost s: Ideal) returns (ghost names': Names)
    requires Simulates(vm, names, s) && op.Text?
    modifies vm, vm.objs, vm.strings, vm.strings.entries
    ensures Simulates(vm, names', Does(op, s))
    ensures forall o :: o in vm.objs ==> o in old(vm.objs) || fresh(o)
    ensures vm.strings.entries == old(vm.strings.entries) || fresh(vm.strings.entries)
  {
    hide Vm.Valid, References, IsNamed, Vm.KeepsAll;
    names' := names;
    if op.r < |vm.roots| {
      ghost var before := BodiesOf(vm);
      var o := vm.CopyString(op.chars, op.collectFirst, op.collectInTable);
      ghost var after := BodiesOf(vm);
      names' := names[o := Contents(op.chars)];
      OneString(vm, o);
      TextNamed(before, after, o, names, s);
      Named(before, names, s);
      RootsAreObjects(vm);
      RegistersStay(vm.roots, before, after, names, names', s, s);
      SetRegister(vm, op.r, o, names', s);
    }
  }

  lemma OneString(vm: Vm, o: Obj)
    requires vm.Valid() && o in vm.objs && o.isString
    ensures forall p :: p in vm.objs && p.isString && p.chars == o.chars ==> p == o
  {
    forall p | p in vm.objs && p.isString && p.chars == o.chars ensures p == o {
      vm.PointerEqualityIsContentEquality(p, o);
    }
  }

  method DoNewCell(vm: Vm, op: Op, ghost names: Names, ghost s: Ideal) returns (ghost names': Names)
    requires Simulates(vm, names, s) && op.NewCell?
    modifies vm, vm.objs, vm.strings, vm.strings.entries
    ensures Simulates(vm, names', Does(op, s))
    ensures forall o :: o in vm.objs ==> o in old(vm.objs) || fresh(o)
    ensures vm.strings.entries == old(vm.strings.entries)
  {
    hide Vm.Valid, References, IsNamed, Vm.KeepsAll;
    names' := names;
    if op.r < |vm.roots| {
      ghost var before := BodiesOf(vm);
      var c := vm.AllocateCell(op.collect);
      ghost var after := BodiesOf(vm);
      names' := names[c := CellNumber(|s.cells|)];
      ghost var s' := s.(cells := s.cells + [Nothing]);
      CellNamed(before, after, c, names, s);
      Named(before, names, s);
      RootsAreObjects(vm);
      RegistersStay(vm.roots, before, after, names, names', s, s');
      SetRegister(vm, op.r, c, names', s');
    }
  }

  method DoPut(vm: Vm, op: Op, ghost names: Names, ghost s: Ideal)
    requires Simulates(vm, names, s) && op.Put?
    modifies vm.objs
    ensures Simulates(vm, names, Does(op, s))
  {
    hide Vm.Valid, References, IsNamed, Holding, Content;
    RootsAreObjects(vm);
    if op.r < |vm.roots| && op.s < |vm.roots| {
      var c, x := vm.roots[op.r], vm.roots[op.s];
      ghost var before := BodiesOf(vm);
      CellThere(vm.roots, before, names, s, op.r);
      if c != null && !c.isString {
        HoldingRefers(x);
        vm.Store(c, Holding(x));
        PutNamed(before, BodiesOf(vm), c, x, names, s);
        Named(before, names, s);
        RegistersStay(vm.roots, before, BodiesOf(vm), names, names, s, Does(op, s));
      }
    }
  }

  method DoGet(vm: Vm, op: Op, ghost names: Names, ghost s: Ideal)
    requires Simulates(vm, names, s) && op.Get?
    modifies vm`roots
    ensures Simulates(vm, names, Does(op, s))
  {
    hide Vm.Valid, References, IsNamed, Holding, Content;
    RootsAreObjects(vm);
    if op.r < |vm.roots| && op.s < |vm.roots| {
      var c := vm.roots[op.s];
      CellThere(vm.roots, BodiesOf(vm), names, s, op.s);
      if c != null && !c.isString {
        ContentIsObject(vm, c);
        SetRegister(vm, op.r, Content(c.body), names, s);
      }
    }
  }

  lemma ContentIsObject(vm: Vm, c: Obj)
    requires vm.Valid() && c in vm.objs && c.body == Holding(Content(c.body))
    ensures Content(c.body) != null ==> Content(c.body) in vm.objs
  {
    hide References;
    HoldingRefers(Content(c.body));
  }

  method DoCollect(vm: Vm, ghost names: Names, ghost s: Ideal)
    requires Simulates(vm, names, s)
    modifies vm, vm.objs, vm.strings, vm.strings.entries
    ensures Simulates(vm, names, s)
    ensures forall o :: o in vm.objs ==> o in old(vm.objs)
    ensures vm.strings.entries == old(vm.strings.entries)
  {
    hide Vm.WellFormed, References, IsNamed, Vm.KeepsAll;
    ghost var before := BodiesOf(vm);
    vm.MaybeCollect(true, null);
    Fewer(before, BodiesOf(vm), names, s);
    Named(before, names, s);
    RootsAreObjects(vm);
    RegistersStay(vm.roots, before, BodiesOf(vm), names, names, s, s);
  }

  /** One step, on the real heap. */
  method Perform(vm: Vm, op: Op, out: seq<bool>, ghost names: Names, ghost s: Ideal)
    returns (out': seq<bool>, ghost names': Names)
    requires Simulates(vm, names, s) && out == s.out
    modifies vm, vm.objs, vm.strings, vm.strings.entries
    ensures Simulates(vm, names', Does(op, s)) && out' == Does(op, s).out
    ensures forall o :: o in vm.objs ==> o in old(vm.objs) || fresh(o)
    ensures vm.strings.entries == old(vm.strings.entries) || fresh(vm.strings.entries)
  {
    hide Vm.Valid, References, AllNamed, IsNamed;
    out', names' := out, names;
    match op
    case Text(_, _, _, _) => names' := DoText(vm, op, names, s);
    case NewCell(_, _) => names' := DoNewCell(vm, op, names, s);
    case Put(_, _) => DoPut(vm, op, names, s);
    case Get(_, _) => DoGet(vm, op, names, s);
    case Clear(r) =>
      if r < |vm.roots| {
        SetRegister(vm, r, null, names, s);
      }
    case Compare(r, x) =>
      if r < |vm.roots| && x < |vm.roots| {
        SameThing(vm.roots, BodiesOf(vm), names, s, r, x);
        SameCells(BodiesOf(vm), names, s, Does(op, s));
        out' := out + [vm.roots[r] == vm.roots[x]];
      }
    case Collect => DoCollect(vm, names, s);
  }

  /** A program on a new heap sees what it would see if nothing were ever collected. */
  method Observe(ops: seq<Op>, registers: nat) returns (out: seq<bool>)
    ensures out == DoesAll(ops, Ideal(seq(registers, _ => Nothing), [], [])).out
  {
    hide Vm.Valid, References, AllNamed, IsNamed, Does;
    var vm := new Vm();
    vm.Hold(seq(registers, _ => null));
    ghost var names: Names := map[];
    ghost var s := Ideal(seq(registers, _ => Nothing), [], []);
    NothingNamed(names, s);
    assert BodiesOf(vm) == map[];
    out := [];
    var rest := ops;
    while rest != []
      invariant fresh(vm) && fresh(vm.strings) && fresh(vm.strings.entries) && forall o :: o in vm.objs ==> fresh(o)
      invariant Simulates(vm, names, s) && out == s.out
      invariant DoesAll(rest, s) == DoesAll(ops, Ideal(seq(registers, _ => Nothing), [], []))
      decreases |rest|
    {
      forall i | 0 <= i < |vm.objs| ensures fresh(vm.objs[i]) {
        assert vm.objs[i] in vm.objs;
      }
      out, names := Perform(vm, rest[0], out, names, s);
      s := Does(rest[0], s);
      rest := rest[1..];
    }
  }

  lemma NothingNamed(names: Names, s: Ideal)
    ensures AllNamed(map[], names, s)
  {
  }
}
