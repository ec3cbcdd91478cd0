/** What closures are promised: a captured variable is shared, before and after its slot is gone.
    Any run of stack and upvalue operations on a routine gives what the plain sharing of variables
    gives. */
module SharedVariables {
  import opened Language
  import opened Routines

  datatype Op =
    | Push(value: Value)
    | Pop
    | GetLocal(i: nat)
    | SetLocal(i: nat)
    | Capture(i: nat)
    | GetUpvalue(k: nat)
    | SetUpvalue(k: nat)
    | CloseUpvalue
    | Return(stackEntryIndex: nat)

  /** The variable in each slot, what each variable holds, and the variables that were captured. */
  datatype State = State(slots: seq<Var>, store: seq<Value>, captured: seq<Var>)

  ghost predicate WellFormed(s: State) {
    && (forall i :: 0 <= i < |s.slots| ==> s.slots[i] < |s.store|)
    && (forall i :: 0 <= i < |s.captured| ==> s.captured[i] < |s.store|)
  }

  /** Slots that are there; and a captured variable is not popped but closed. */
  ghost predicate Legal(op: Op, s: State) {
    var n := |s.slots|;
    match op
    case Push(_) => true
    case Pop => n > 0 && s.slots[n - 1] !in s.captured
    case GetLocal(i) => i < n
    case SetLocal(i) => i < n
    case Capture(i) => i < n
    case GetUpvalue(k) => k < |s.captured|
    case SetUpvalue(k) => n > 0 && k < |s.captured|
    case CloseUpvalue => n > 0
    case Return(entry) => entry < n
  }

  /** Pushing makes a new variable; closing is nothing but popping. */
  ghost function Do(op: Op, s: State): (r: State)
    requires WellFormed(s) && Legal(op, s)
    ensures WellFormed(r)
  {
    var n := |s.slots|;
    match op
    case Push(v) => PushValue(s, v)
    case Pop => s.(slots := s.slots[..n - 1])
    case GetLocal(i) => PushValue(s, s.store[s.slots[i]])
    case SetLocal(i) => s.(store := s.store[s.slots[i] := s.store[s.slots[n - 1]]])
    case Capture(i) => s.(captured := s.captured + [s.slots[i]])
    case GetUpvalue(k) => PushValue(s, s.store[s.captured[k]])
    case SetUpvalue(k) => s.(store := s.store[s.captured[k] := s.store[s.slots[n - 1]]])
    case CloseUpvalue => s.(slots := s.slots[..n - 1])
    case Return(entry) => PushValue(s.(slots := s.slots[..entry]), s.store[s.slots[n - 1]])
  }

  ghost function PushValue(s: State, v: Value): State {
    State(s.slots + [|s.store|], s.store + [v], s.captured)
  }

  ghost predicate LegalRun(ops: seq<Op>, s: State)
    requires WellFormed(s)
  {
    ops == [] || (Legal(ops[0], s) && LegalRun(ops[1..], Do(ops[0], s)))
  }

  ghost function DoAll(ops: seq<Op>, s: State): (r: State)
    requires WellFormed(s) && LegalRun(ops, s)
    ensures WellFormed(r)
  {
    if ops == [] then s else DoAll(ops[1..], Do(ops[0], s))
  }

  ghost function StackOf(s: State): (r: seq<Value>)
    requires WellFormed(s)
    ensures |r| == |s.slots|
  {
    seq(|s.slots|, i requires 0 <= i < |s.slots| => s.store[s.slots[i]])
  }

  /** The upvalues that closures hold, in the order they were captured. */
  ghost predicate Holds(r: Routine, held: seq<Upvalue>)
    reads r, r.stackSlices, r.cells, r.open, r.upvalues, r.closedCells
  {
    && r.Valid()
    && (forall u :: u in r.upvalues ==> u in held)
    && (forall k :: 0 <= k < |held| ==> held[k] in r.upvalues)
  }

  ghost function View(r: Routine, held: seq<Upvalue>): (s: State)
    requires Holds(r, held)
    reads r, r.stackSlices, r.cells, r.open, r.upvalues, r.closedCells
    ensures |s.captured| == |held| && WellFormed(s)
  {
    var varOf := r.varOf;
    State(r.vars, r.store, seq(|held|, k requires 0 <= k < |held| && held[k] in varOf => varOf[held[k]]))
  }

  lemma CapturedIsHeld(r: Routine, held: seq<Upvalue>, i: nat)
    requires Holds(r, held) && i < |r.vars| && r.Captured(i)
    ensures r.vars[i] in View(r, held).captured
  {
    var u :| u in r.open && u.stackOffset == i;
    var k :| 0 <= k < |held| && held[k] == u;
    assert View(r, held).captured[k] == r.vars[i];
  }

  /** The upvalues grow with what is captured and the slots with the stack. */
  method PerformCapture(r: Routine, held: seq<Upvalue>, i: nat) returns (held': seq<Upvalue>)
    requires Holds(r, held) && i < |r.vars|
    modifies r`openUpvalues, r`open, r`upvalues, r`closedCells, r`varOf, r.open
    ensures Holds(r, held') && View(r, held') == Do(Capture(i), old(View(r, held)))
    ensures forall c :: c in r.closedCells ==> c in old(r.closedCells) || fresh(c)
    ensures forall u :: u in r.upvalues ==> u in old(r.upvalues) || fresh(u)
  {
    hide Routine.SlicesOk, Routine.SlotsOk, Routine.ListOk, Routine.UpvaluesOk, Routine.Captured;
    r.OpenAreUpvalues();
    var c := r.FrameSlot(0, i);
    var u := r.CaptureUpvalue(c, i);
    r.OpenAreUpvalues();
    held' := held + [u];
    assert forall k :: 0 <= k < |held| ==> r.varOf[held[k]] == old(r.varOf)[held[k]];
  }

  method PerformSet(r: Routine, held: seq<Upvalue>, k: nat)
    requires Holds(r, held) && k < |held| && 0 < |r.vars|
    modifies r`store, r.cells, r.closedCells
    ensures Holds(r, held) && View(r, held) == Do(SetUpvalue(k), old(View(r, held)))
  {
    hide Routine.SlicesOk, Routine.SlotsOk, Routine.ListOk, Routine.UpvaluesOk;
    r.SlotVar(|r.vars| - 1);
    r.WhereIs(held[k]);
    var v := r.Peek(0);
    r.SetUpvalue(held[k], v);
  }

  /** The operations that push a value. */
  method PerformPush(r: Routine, held: seq<Upvalue>, op: Op)
    requires Holds(r, held) && Legal(op, View(r, held)) && (op.Push? || op.GetLocal? || op.GetUpvalue?)
    modifies r, r.stackSlices, r.cells
    ensures Holds(r, held) && View(r, held) == Do(op, old(View(r, held)))
    ensures forall c :: c in r.cells ==> c in old(r.cells) || fresh(c)
    ensures r.closedCells == old(r.closedCells) && r.upvalues == old(r.upvalues)
    ensures r.stackSlices == old(r.stackSlices) || fresh(r.stackSlices)
  {
    hide Routine.SlicesOk, Routine.SlotsOk, Routine.ListOk, Routine.UpvaluesOk, Routine.Contents;
    var v: Value;
    match op {
      case Push(value) => v := value;
      case GetLocal(i) =>
        r.SlotVar(i);
        var c := r.FrameSlot(0, i);
        v := c.value;
      case GetUpvalue(k) => v := r.GetUpvalue(held[k]);
    }
    assert r.cells[r.stackTopIndex] in r.cells;
    r.Push(v);
  }

  /** The other operations that leave the upvalues as they are. */
  method PerformOnStack(r: Routine, held: seq<Upvalue>, op: Op)
    requires Holds(r, held) && Legal(op, View(r, held)) && (op.Pop? || op.SetLocal? || op.CloseUpvalue? || op.Return?)
    modifies r, r.stackSlices, r.cells, r.open, r.closedCells
    ensures Holds(r, held) && View(r, held) == Do(op, old(View(r, held)))
    ensures forall c :: c in r.cells ==> c in old(r.cells) || fresh(c)
    ensures r.closedCells == old(r.closedCells) && r.upvalues == old(r.upvalues)
    ensures r.stackSlices == old(r.stackSlices) || fresh(r.stackSlices)
  {
    hide Routine.SlicesOk, Routine.SlotsOk, Routine.ListOk, Routine.UpvaluesOk, Routine.Contents;
    match op
    case Pop =>
      if r.Captured(r.stackTopIndex - 1) {
        CapturedIsHeld(r, held, r.stackTopIndex - 1);
      }
      var _ := r.Pop();
    case SetLocal(i) =>
      var v := r.Peek(0);
      r.SetSlot(i, v);
    case CloseUpvalue => r.OpCloseUpvalues();
    case Return(entry) => r.OpReturn(entry);
  }

  method Perform(r: Routine, held: seq<Upvalue>, op: Op) returns (held': seq<Upvalue>)
    requires Holds(r, held) && Legal(op, View(r, held))
    modifies r, r.stackSlices, r.cells, r.open, r.closedCells
    ensures Holds(r, held') && View(r, held') == Do(op, old(View(r, held)))
    ensures forall c :: c in r.cells ==> c in old(r.cells) || fresh(c)
    ensures forall c :: c in r.closedCells ==> c in old(r.closedCells) || fresh(c)
    ensures forall u :: u in r.upvalues ==> u in old(r.upvalues) || fresh(u)
    ensures r.stackSlices == old(r.stackSlices) || fresh(r.stackSlices)
  {
    hide Routine.Valid, Do, WellFormed;
    held' := held;
    match op
    case Capture(i) => held' := PerformCapture(r, held, i);
    case SetUpvalue(k) => PerformSet(r, held, k);
    case Push(_) => PerformPush(r, held, op);
    case GetLocal(_) => PerformPush(r, held, op);
    case GetUpvalue(_) => PerformPush(r, held, op);
    case _ => PerformOnStack(r, held, op);
  }

  /** A run from an empty routine, and the stack that it leaves: what sharing says, whatever was
      captured, closed and returned from on the way. */
  method Replay(ops: seq<Op>) returns (stack: seq<Value>)
    requires LegalRun(ops, State([], [], []))
    ensures stack == StackOf(DoAll(ops, State([], [], [])))
  {
    hide Routine.SlicesOk, Routine.SlotsOk, Routine.ListOk, Routine.UpvaluesOk, Do;
    var r := new Routine();
    var held: seq<Upvalue> := [];
    var rest := ops;
    while rest != []
      invariant fresh(r) && fresh(r.stackSlices) && Holds(r, held) && LegalRun(rest, View(r, held))
      invariant forall c :: c in r.cells ==> fresh(c)
      invariant forall c :: c in r.closedCells ==> fresh(c)
      invariant forall u :: u in r.upvalues ==> fresh(u)
      invariant DoAll(rest, View(r, held)) == DoAll(ops, State([], [], []))
      decreases |rest|
    {
      r.OpenAreUpvalues();
      forall i | 0 <= i < |r.cells| ensures fresh(r.cells[i]) {
        assert r.cells[i] in r.cells;
      }
      forall i | 0 <= i < |r.open| ensures fresh(r.open[i]) {
        assert r.open[i] in r.upvalues;
      }
      held := Perform(r, held, rest[0]);
      rest := rest[1..];
    }
    stack := Stack(r);
  }

  method Stack(r: Routine) returns (stack: seq<Value>)
    requires r.Valid()
    ensures stack == r.Contents()
  {
    stack := [];
    while |stack| < r.stackTopIndex
      invariant stack <= r.Contents()
    {
      var c := r.FrameSlot(0, |stack|);
      stack := stack + [c.value];
    }
  }
}
