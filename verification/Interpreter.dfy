/** The interpreter as it works: an instruction pointer, a routine's stack and a table of globals,
    changed in place (`run` in cyarg/vm.c).  Each round is the step that `Bytecode` describes. */
module Interpreter {
  import opened Language
  import opened Bytecode
  import opened Routines

  datatype ExecState = RUNNING | CLOSED | ERROR | STUCK

  class Interpreter {
    const program: Program
    const routine: Routine
    var ip: nat
    var globals: map<string, Value>
    var out: seq<Value>
    var execState: ExecState

    /** Nothing in the subset captures a variable. */
    ghost predicate Valid()
      reads this, routine, routine.stackSlices, routine.cells, routine.open, routine.upvalues, routine.closedCells
    {
      routine.Valid() && routine.open == []
    }

    ghost function State(): Machine
      requires Valid()
      reads this, routine, routine.stackSlices, routine.cells, routine.open, routine.upvalues, routine.closedCells
    {
      match execState
      case RUNNING => Running(ip, routine.Contents(), globals, out)
      case CLOSED => Done(globals, out)
      case ERROR => Failed(out)
      case STUCK => Stuck
    }

    /** The script's frame: its function in slot 0. */
    constructor (program: Program)
      ensures Valid() && State() == Running(0, [Script], map[], []) && this.program == program
      ensures fresh(routine) && fresh(routine.stackSlices) && forall c :: c in routine.cells ==> fresh(c)
    {
      var r := new Routine();
      assert r.cells[0] in r.cells;
      r.Push(Script);
      this.program, routine := program, r;
      ip, globals, out, execState := 0, map[], [], RUNNING;
    }

    /** What a step may change, and that it only adds slots. */
    twostate predicate Grows()
      reads routine
    {
      && (forall c :: c in routine.cells ==> c in old(routine.cells) || fresh(c))
      && (routine.stackSlices == old(routine.stackSlices) || fresh(routine.stackSlices))
    }

    method Push(v: Value)
      requires Valid() && execState == RUNNING
      modifies routine, routine.stackSlices, routine.cells
      ensures Valid() && Grows() && State() == Bytecode.Push(old(State()), v)
    {
      hide Routine.SlicesOk, Routine.SlotsOk, Routine.ListOk, Routine.UpvaluesOk;
      assert routine.cells[routine.stackTopIndex] in routine.cells;
      routine.Push(v);
    }

    method Pop() returns (v: Value)
      requires Valid() && execState == RUNNING && |routine.Contents()| > 0
      modifies routine`stackTopIndex, routine`vars
      ensures Valid() && Grows() && State() == Bytecode.Pop(old(State()))
      ensures v == old(routine.Contents()[|routine.Contents()| - 1])
    {
      v := routine.Pop();
    }

    method Fail(state: ExecState)
      requires Valid()
      modifies `execState
      ensures Valid() && execState == state && Grows()
    {
      execState := state;
    }

    method ReadByte() returns (b: Byte)
      requires ip < |program.code|
      modifies `ip
      ensures ip == old(ip) + 1 && b == program.code[old(ip)]
    {
      b := program.code[ip];
      ip := ip + 1;
    }

    method ReadOperands(n: nat) returns (arg: seq<Byte>)
      requires ip + n <= |program.code|
      modifies `ip
      ensures ip == old(ip) + n && arg == program.code[old(ip)..old(ip) + n]
    {
      arg := [];
      while |arg| < n
        invariant |arg| <= n && ip == old(ip) + |arg| && arg == program.code[old(ip)..ip]
      {
        var b := ReadByte();
        arg := arg + [b];
      }
    }

    // ---- instructions ----

    method PushLiteral(op: Byte, arg: seq<Byte>)
      requires Valid() && execState == RUNNING && |arg| == Operands(op)
      requires op in {OP_NIL, OP_TRUE, OP_FALSE, OP_CONSTANT, OP_IMMEDIATE_P8, OP_IMMEDIATE_P16, OP_IMMEDIATE_P24,
                      OP_IMMEDIATE_N8, OP_IMMEDIATE_N16, OP_IMMEDIATE_N24}
      modifies this, routine, routine.stackSlices, routine.cells
      ensures Valid() && Grows() && State() == Execute(program, op, arg, old(State()))
    {
      hide Routine.Valid, Routine.Contents;
      if op == OP_NIL {
        Push(NilVal);
      } else if op == OP_TRUE {
        Push(Bool(true));
      } else if op == OP_FALSE {
        Push(Bool(false));
      } else if op == OP_CONSTANT {
        if arg[0] < |program.consts| && program.consts[arg[0]].IntConst? {
          Push(Int(program.consts[arg[0]].n));
        } else {
          Fail(STUCK);
        }
      } else {
        var num: nat := arg[0];
        if op in {OP_IMMEDIATE_N16, OP_IMMEDIATE_P16, OP_IMMEDIATE_N24, OP_IMMEDIATE_P24} {
          num := num + 256 * arg[1] as nat;
        }
        if op in {OP_IMMEDIATE_N24, OP_IMMEDIATE_P24} {
          num := num + 65536 * arg[2] as nat;
        }
        var neg := op in {OP_IMMEDIATE_N8, OP_IMMEDIATE_N16, OP_IMMEDIATE_N24};
        Push(Int(if neg then -(num as int) else num));
      }
    }

    method Local(op: Byte, slot: Byte)
      requires Valid() && execState == RUNNING && op in {OP_GET_LOCAL, OP_SET_LOCAL}
      modifies this, routine, routine.stackSlices, routine.cells
      ensures Valid() && Grows() && State() == Execute(program, op, [slot], old(State()))
    {
      hide Routine.SlicesOk, Routine.SlotsOk, Routine.ListOk, Routine.UpvaluesOk;
      if slot >= routine.stackTopIndex {
        Fail(STUCK);
      } else if op == OP_GET_LOCAL {
        routine.SlotVar(slot);
        var c := routine.FrameSlot(0, slot);
        Push(c.value);
      } else {
        var rhs := routine.Peek(0);
        assert routine.cells[slot] in routine.cells;
        routine.SetSlot(slot, rhs);
      }
    }

    method GlobalVariable(op: Byte, index: Byte)
      requires Valid() && execState == RUNNING && op in {OP_GET_GLOBAL, OP_SET_GLOBAL, OP_DEFINE_GLOBAL}
      modifies this, routine, routine.stackSlices, routine.cells
      ensures Valid() && Grows() && State() == Execute(program, op, [index], old(State()))
    {
      hide Routine.Valid, Routine.Contents;
      if index >= |program.consts| || !program.consts[index].NameConst? {
        Fail(STUCK);
        return;
      }
      var name := program.consts[index].name;
      if op == OP_GET_GLOBAL {
        if name in globals {
          Push(globals[name]);
        } else {
          Fail(ERROR);
        }
      } else if routine.stackTopIndex == 0 {
        Fail(STUCK);
      } else if op == OP_DEFINE_GLOBAL {
        var v := routine.Peek(0);
        globals := globals[name := v];
        var _ := Pop();
      } else if name in globals {
        var v := routine.Peek(0);
        globals := globals[name := v];
      } else {
        Fail(ERROR);
      }
    }

    method JumpOrReturn(op: Byte, arg: seq<Byte>)
      requires Valid() && execState == RUNNING && |arg| == Operands(op)
      requires op in {OP_JUMP, OP_JUMP_IF_FALSE, OP_LOOP, OP_RETURN}
      modifies this
      ensures Valid() && Grows() && State() == Execute(program, op, arg, old(State()))
    {
      hide Routine.Valid, Routine.Contents;
      if op == OP_RETURN {
        execState := if routine.stackTopIndex == 0 then STUCK else CLOSED;
        return;
      }
      var offset := Short(arg);
      if op == OP_JUMP {
        ip := ip + offset;
      } else if op == OP_LOOP {
        if offset <= ip {
          ip := ip - offset;
        } else {
          Fail(STUCK);
        }
      } else if routine.stackTopIndex == 0 {
        Fail(STUCK);
      } else {
        var top := routine.Peek(0);
        if Falsey(top) {
          ip := ip + offset;
        }
      }
    }

    /** Pops `k` operands and pushes the result. */
    method Replace(k: nat, v: Value)
      requires Valid() && execState == RUNNING && k <= routine.stackTopIndex
      modifies routine, routine.stackSlices, routine.cells
      ensures Valid() && Grows() && State() == Bytecode.Replace(old(State()), k, Some(v))
    {
      hide Routine.SlicesOk, Routine.SlotsOk, Routine.ListOk, Routine.UpvaluesOk;
      var i := 0;
      while i < k
        modifies routine`stackTopIndex, routine`vars
        invariant 0 <= i <= k && Valid() && execState == RUNNING && k - i <= routine.stackTopIndex
        invariant State() == Running(ip, old(routine.Contents())[..|old(routine.Contents())| - i], globals, out)
      {
        var _ := Pop();
        i := i + 1;
      }
      Push(v);
    }

    method Unary(op: Byte)
      requires Valid() && execState == RUNNING && op in {OP_NOT, OP_NEGATE}
      modifies this, routine, routine.stackSlices, routine.cells
      ensures Valid() && Grows() && State() == Execute(program, op, [], old(State()))
    {
      hide Routine.Valid, Routine.Contents;
      if routine.stackTopIndex == 0 {
        Fail(STUCK);
        return;
      }
      var top := routine.Peek(0);
      if op == OP_NOT {
        Replace(1, Bool(Falsey(top)));
      } else if top.Int? {
        Replace(1, Int(-top.n));
      } else {
        Fail(ERROR);
      }
    }

    /** The instructions that take the top of the stack, whatever it is. */
    method OnTop(op: Byte)
      requires Valid() && execState == RUNNING && op in {OP_POP, OP_SET_CELL_TYPE, OP_DUPLICATE, OP_PRINT}
      modifies this, routine, routine.stackSlices, routine.cells
      ensures Valid() && Grows() && State() == Execute(program, op, [], old(State()))
    {
      hide Routine.Valid, Routine.Contents, Execute;
      if op == OP_POP {
        PopTop();
      } else if op == OP_PRINT {
        PrintTop();
      } else {
        ReplaceTop(op);
      }
    }

    method PopTop()
      requires Valid() && execState == RUNNING
      modifies this, routine, routine.stackSlices, routine.cells
      ensures Valid() && Grows() && State() == Execute(program, OP_POP, [], old(State()))
    {
      hide Routine.Valid, Routine.Contents;
      if routine.stackTopIndex == 0 {
        Fail(STUCK);
      } else {
        var _ := Pop();
      }
    }

    method PrintTop()
      requires Valid() && execState == RUNNING
      modifies this, routine, routine.stackSlices, routine.cells
      ensures Valid() && Grows() && State() == Execute(program, OP_PRINT, [], old(State()))
    {
      hide Routine.Valid, Routine.Contents;
      if routine.stackTopIndex == 0 {
        Fail(STUCK);
      } else {
        var top := Pop();
        out := out + [top];
      }
    }

    /** A cell without a type takes the place of one; the duplicate of a value is the same value. */
    method ReplaceTop(op: Byte)
      requires Valid() && execState == RUNNING && op in {OP_SET_CELL_TYPE, OP_DUPLICATE}
      modifies this, routine, routine.stackSlices, routine.cells
      ensures Valid() && Grows() && State() == Execute(program, op, [], old(State()))
    {
      hide Routine.Valid, Routine.Contents;
      if routine.stackTopIndex == 0 {
        Fail(STUCK);
      } else {
        var top := routine.Peek(0);
        Replace(1, if op == OP_SET_CELL_TYPE then NilVal else top);
      }
    }

    method Operator(op: Byte)
      requires Valid() && execState == RUNNING && OperatorOf(op).Some?
      modifies this, routine, routine.stackSlices, routine.cells
      ensures Valid() && Grows() && State() == Execute(program, op, [], old(State()))
    {
      hide Routine.Valid, Routine.Contents, Apply;
      if routine.stackTopIndex < 2 {
        Fail(STUCK);
        return;
      }
      var b := routine.Peek(0);
      var a := routine.Peek(1);
      var r := Apply(OperatorOf(op).value, a, b);
      if r.None? {
        Fail(ERROR);
      } else {
        Replace(2, r.value);
      }
    }

    method Initialise()
      requires Valid() && execState == RUNNING
      modifies this, routine, routine.stackSlices, routine.cells
      ensures Valid() && Grows() && State() == Execute(program, OP_INITIALISE, [], old(State()))
    {
      hide Routine.SlicesOk, Routine.SlotsOk, Routine.ListOk, Routine.UpvaluesOk;
      if routine.stackTopIndex < 2 {
        Fail(STUCK);
        return;
      }
      var rhs := routine.Peek(0);
      assert routine.cells[routine.stackTopIndex - 2] in routine.cells;
      routine.SetSlot(routine.stackTopIndex - 2, rhs);
      var _ := Pop();
    }

    method Instruction(op: Byte, arg: seq<Byte>)
      requires Valid() && execState == RUNNING && |arg| == Operands(op)
      modifies this, routine, routine.stackSlices, routine.cells
      ensures Valid() && Grows() && State() == Execute(program, op, arg, old(State()))
    {
      hide Routine.Valid, Routine.Contents;
      if op in {OP_NIL, OP_TRUE, OP_FALSE, OP_CONSTANT, OP_IMMEDIATE_P8, OP_IMMEDIATE_P16, OP_IMMEDIATE_P24,
                OP_IMMEDIATE_N8, OP_IMMEDIATE_N16, OP_IMMEDIATE_N24} {
        PushLiteral(op, arg);
      } else if op in {OP_GET_LOCAL, OP_SET_LOCAL} {
        assert arg == [arg[0]];
        Local(op, arg[0]);
      } else if op in {OP_GET_GLOBAL, OP_SET_GLOBAL, OP_DEFINE_GLOBAL} {
        assert arg == [arg[0]];
        GlobalVariable(op, arg[0]);
      } else if op in {OP_JUMP, OP_JUMP_IF_FALSE, OP_LOOP, OP_RETURN} {
        JumpOrReturn(op, arg);
      } else {
        assert arg == [];
        if op in {OP_POP, OP_SET_CELL_TYPE, OP_DUPLICATE, OP_PRINT} {
          OnTop(op);
        } else if op in {OP_NOT, OP_NEGATE} {
          Unary(op);
        } else if OperatorOf(op).Some? {
          Operator(op);
        } else if op == OP_INITIALISE {
          Initialise();
        } else {
          Fail(STUCK);
        }
      }
    }

    /** One round of the loop in `run`. */
    method Round()
      requires Valid() && execState == RUNNING
      modifies this, routine, routine.stackSlices, routine.cells
      ensures Valid() && Grows() && State() == Step(program, old(State()))
    {
      hide Execute, Routine.Valid, Routine.Contents;
      if ip >= |program.code| {
        Fail(STUCK);
        return;
      }
      var op := ReadByte();
      if ip + Operands(op) > |program.code| {
        Fail(STUCK);
      } else {
        var arg := ReadOperands(Operands(op));
        Instruction(op, arg);
      }
    }
  }

  /** `run`, for at most `rounds` rounds. */
  method Interpret(program: Program, rounds: nat) returns (end: Machine)
    ensures end == Run(program, Running(0, [Script], map[], []), rounds)
  {
    hide Routine.Valid, Routine.Contents, Step;
    var vm := new Interpreter(program);
    var n := 0;
    while n < rounds && vm.execState == RUNNING
      invariant n <= rounds && vm.Valid() && vm.program == program
      invariant fresh(vm) && fresh(vm.routine) && fresh(vm.routine.stackSlices) && forall c :: c in vm.routine.cells ==> fresh(c)
      invariant Run(program, vm.State(), rounds - n) == Run(program, Running(0, [Script], map[], []), rounds)
    {
      forall i | 0 <= i < |vm.routine.cells| ensures fresh(vm.routine.cells[i]) {
        assert vm.routine.cells[i] in vm.routine.cells;
      }
      vm.Round();
      n := n + 1;
    }
    if vm.execState != RUNNING {
      StoppedStays(program, vm.State(), rounds - n);
    }
    end := Halted(vm);
  }

  method Halted(vm: Interpreter) returns (m: Machine)
    requires vm.Valid()
    ensures m == vm.State()
  {
    match vm.execState
    case RUNNING =>
      var stack: seq<Value> := [];
      while |stack| < vm.routine.stackTopIndex
        invariant stack <= vm.routine.Contents()
      {
        var c := vm.routine.FrameSlot(0, |stack|);
        stack := stack + [c.value];
      }
      m := Running(vm.ip, stack, vm.globals, vm.out);
    case CLOSED => m := Done(vm.globals, vm.out);
    case ERROR => m := Failed(vm.out);
    case STUCK => m := Stuck;
  }
}
