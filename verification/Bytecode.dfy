/** The byte code of the subset and the interpreter's steps on it (cyarg/chunk.h, cyarg/vm.c). */
module Bytecode {
  import opened Language

  type Byte = n: nat | n < 256

  const OP_CONSTANT: Byte := 0
  const OP_NIL: Byte := 1
  const OP_TRUE: Byte := 2
  const OP_FALSE: Byte := 3
  const OP_POP: Byte := 4
  const OP_GET_LOCAL: Byte := 6
  const OP_SET_LOCAL: Byte := 7
  const OP_GET_GLOBAL: Byte := 8
  const OP_DEFINE_GLOBAL: Byte := 9
  const OP_SET_GLOBAL: Byte := 10
  const OP_INITIALISE: Byte := 11
  const OP_EQUAL: Byte := 17
  const OP_GREATER: Byte := 18
  const OP_LESS: Byte := 19
  const OP_ADD: Byte := 22
  const OP_SUBTRACT: Byte := 23
  const OP_MODULO: Byte := 27
  const OP_MULTIPLY: Byte := 28
  const OP_DIVIDE: Byte := 29
  const OP_NOT: Byte := 30
  const OP_NEGATE: Byte := 31
  const OP_PRINT: Byte := 32
  const OP_JUMP: Byte := 34
  const OP_JUMP_IF_FALSE: Byte := 35
  const OP_LOOP: Byte := 36
  const OP_RETURN: Byte := 42
  const OP_IMMEDIATE_P8: Byte := 49
  const OP_IMMEDIATE_P16: Byte := 50
  const OP_IMMEDIATE_P24: Byte := 51
  const OP_IMMEDIATE_N8: Byte := 52
  const OP_IMMEDIATE_N16: Byte := 53
  const OP_IMMEDIATE_N24: Byte := 54
  const OP_SET_CELL_TYPE: Byte := 58
  const OP_DUPLICATE: Byte := 62

  datatype Const = IntConst(n: int) | NameConst(name: string)

  datatype Program = Program(code: seq<Byte>, consts: seq<Const>)

  /** The running routine: one frame whose slots start at the bottom of the stack. */
  datatype Machine =
    | Running(ip: nat, stack: seq<Value>, globals: map<string, Value>, out: seq<Value>)
    | Done(globals: map<string, Value>, out: seq<Value>)
    | Failed(out: seq<Value>)
    | Stuck                                    // no such step in the real interpreter

  /** The binary operator of an opcode. */
  function OperatorOf(op: Byte): Option<BinaryOp> {
    if op == OP_EQUAL then Some(Equal)
    else if op == OP_GREATER then Some(Greater)
    else if op == OP_LESS then Some(Less)
    else if op == OP_ADD then Some(Add)
    else if op == OP_SUBTRACT then Some(Subtract)
    else if op == OP_MULTIPLY then Some(Multiply)
    else if op == OP_DIVIDE then Some(Divide)
    else if op == OP_MODULO then Some(Modulo)
    else None
  }

  /** How many bytes follow an opcode. */
  function Operands(op: Byte): nat {
    if op in {OP_CONSTANT, OP_GET_LOCAL, OP_SET_LOCAL, OP_GET_GLOBAL, OP_DEFINE_GLOBAL, OP_SET_GLOBAL,
              OP_IMMEDIATE_P8, OP_IMMEDIATE_N8} then 1
    else if op in {OP_JUMP, OP_JUMP_IF_FALSE, OP_LOOP, OP_IMMEDIATE_P16, OP_IMMEDIATE_N16} then 2
    else if op in {OP_IMMEDIATE_P24, OP_IMMEDIATE_N24} then 3
    else 0
  }

  /** One round of `run`. */
  function Step(p: Program, m: Machine): Machine {
    if !m.Running? then m
    else if m.ip >= |p.code| then Stuck
    else
      var op := p.code[m.ip];
      if m.ip + 1 + Operands(op) > |p.code| then Stuck
      else Execute(p, op, p.code[m.ip + 1..m.ip + 1 + Operands(op)], m.(ip := m.ip + 1 + Operands(op)))
  }

  /** The effect of one instruction; `arg` are the bytes after the opcode, `m.ip` is past them. */
  function Execute(p: Program, op: Byte, arg: seq<Byte>, m: Machine): Machine
    requires m.Running? && |arg| == Operands(op)
  {
    var n := |m.stack|;
    if op == OP_NIL then Push(m, NilVal)
    else if op == OP_TRUE then Push(m, Bool(true))
    else if op == OP_FALSE then Push(m, Bool(false))
    else if op in {OP_IMMEDIATE_P8, OP_IMMEDIATE_P16, OP_IMMEDIATE_P24} then Push(m, Int(LittleEndian(arg)))
    else if op in {OP_IMMEDIATE_N8, OP_IMMEDIATE_N16, OP_IMMEDIATE_N24} then Push(m, Int(-(LittleEndian(arg) as int)))
    else if op == OP_CONSTANT then
      (if arg[0] < |p.consts| && p.consts[arg[0]].IntConst? then Push(m, Int(p.consts[arg[0]].n)) else Stuck)
    else if op == OP_GET_LOCAL then
      (if arg[0] < n then Push(m, m.stack[arg[0]]) else Stuck)
    else if op in {OP_GET_GLOBAL, OP_SET_GLOBAL, OP_DEFINE_GLOBAL} then
      (if arg[0] < |p.consts| && p.consts[arg[0]].NameConst? then Global(op, p.consts[arg[0]].name, m) else Stuck)
    else if op == OP_JUMP then m.(ip := m.ip + Short(arg))
    else if op == OP_LOOP then
      (if Short(arg) <= m.ip then m.(ip := m.ip - Short(arg)) else Stuck)
    else if op == OP_RETURN then (if n >= 1 then Done(m.globals, m.out) else Stuck)
    else if n == 0 then Stuck
    else
      var top := m.stack[n - 1];
      if op == OP_POP then Pop(m)
      else if op == OP_SET_CELL_TYPE then Push(Pop(m), NilVal)          // an untyped cell
      else if op == OP_DUPLICATE then m
      else if op == OP_PRINT then Running(m.ip, m.stack[..n - 1], m.globals, m.out + [top])
      else if op == OP_SET_LOCAL then
        (if arg[0] < n then m.(stack := m.stack[arg[0] := top]) else Stuck)
      else if op == OP_JUMP_IF_FALSE then
        (if Falsey(top) then m.(ip := m.ip + Short(arg)) else m)
      else if op == OP_NOT then Replace(m, 1, ApplyUnary(Not, top))
      else if op == OP_NEGATE then Replace(m, 1, ApplyUnary(Negate, top))
      else if n == 1 then Stuck
      else if op == OP_INITIALISE then Pop(m).(stack := m.stack[..n - 1][n - 2 := top])
      else if OperatorOf(op).Some? then Replace(m, 2, Apply(OperatorOf(op).value, m.stack[n - 2], top))
      else Stuck
  }

  function Push(m: Machine, v: Value): (r: Machine)
    requires m.Running?
    ensures r.Running?
  {
    m.(stack := m.stack + [v])
  }

  function Pop(m: Machine): (r: Machine)
    requires m.Running? && |m.stack| > 0
    ensures r.Running?
  {
    m.(stack := m.stack[..|m.stack| - 1])
  }

  /** Replaces the `k` topmost values by the result of an operation, or fails. */
  function Replace(m: Machine, k: nat, v: Option<Value>): Machine
    requires m.Running? && k <= |m.stack|
  {
    match v
    case None => Failed(m.out)
    case Some(x) => m.(stack := m.stack[..|m.stack| - k] + [x])
  }

  function Global(op: Byte, name: string, m: Machine): Machine
    requires m.Running?
  {
    if op == OP_GET_GLOBAL then
      (if name in m.globals then Push(m, m.globals[name]) else Failed(m.out))
    else if |m.stack| == 0 then Stuck
    else
      var top := m.stack[|m.stack| - 1];
      if op == OP_DEFINE_GLOBAL then Running(m.ip, m.stack[..|m.stack| - 1], m.globals[name := top], m.out)
      else if name in m.globals then Running(m.ip, m.stack, m.globals[name := top], m.out)
      else Failed(m.out)
  }

  /** `READ_SHORT`: jump distances, high byte first. */
  function Short(arg: seq<Byte>): (n: nat)
    requires |arg| == 2
  {
    var hi: nat, lo: nat := arg[0], arg[1];
    hi * 256 + lo
  }

  /** Immediate numbers, low byte first. */
  function LittleEndian(arg: seq<Byte>): nat
    requires 1 <= |arg| <= 3
  {
    var a: nat := arg[0];
    var b: nat := if |arg| > 1 then arg[1] else 0;
    var c: nat := if |arg| > 2 then arg[2] else 0;
    a + 256 * b + 65536 * c
  }

  /** `n` rounds of `run`. */
  function Run(p: Program, m: Machine, n: nat): Machine
    decreases n
  {
    if n == 0 then m else Run(p, Step(p, m), n - 1)
  }

  lemma {:induction false} RunAdd(p: Program, m: Machine, a: nat, b: nat)
    ensures Run(p, m, a + b) == Run(p, Run(p, m, a), b)
    decreases a
  {
    if a > 0 {
      RunAdd(p, Step(p, m), a - 1, b);
    }
  }

  /** A machine that has stopped stays as it is. */
  lemma {:induction false} StoppedStays(p: Program, m: Machine, n: nat)
    requires !m.Running?
    ensures Run(p, m, n) == m
    decreases n
  {
    if n > 0 {
      StoppedStays(p, m, n - 1);
    }
  }
}
