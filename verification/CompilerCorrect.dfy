/** Compiled code does what the program means: same prints, same variables, same failures, and it
    runs on exactly when the program does. */
module CompilerCorrect {
  import opened Language
  import opened Bytecode
  import opened Codegen

  ghost predicate CodeAt(p: Program, ip: nat, c: seq<Byte>) {
    ip + |c| <= |p.code| && p.code[ip..ip + |c|] == c
  }

  lemma CodeSplit(p: Program, ip: nat, a: seq<Byte>, b: seq<Byte>)
    requires CodeAt(p, ip, a + b)
    ensures CodeAt(p, ip, a) && CodeAt(p, ip + |a|, b)
  {
    var c := p.code[ip..ip + |a + b|];
    assert a == c[..|a|] == p.code[ip..ip + |a|];
    assert b == c[|a|..] == p.code[ip + |a|..ip + |a| + |b|];
  }

  lemma CodeSplit3(p: Program, ip: nat, a: seq<Byte>, b: seq<Byte>, c: seq<Byte>)
    requires CodeAt(p, ip, a + b + c)
    ensures CodeAt(p, ip, a) && CodeAt(p, ip + |a|, b) && CodeAt(p, ip + |a| + |b|, c)
  {
    CodeSplit(p, ip, a + b, c);
    CodeSplit(p, ip, a, b);
  }

  /** Every local has the slot that the compiler gave it; slots of variables whose initialiser is
      still being computed come last. */
  ghost predicate Frame(scope: Scope, locals: seq<Binding>, stack: seq<Value>) {
    && |locals| <= |scope| <= |stack|
    && (forall i :: 0 <= i < |locals| ==>
          scope[i].name == locals[i].name && scope[i].depth != -1 && stack[i] == locals[i].value)
    && (forall i :: |locals| <= i < |scope| ==> scope[i].depth == -1)
  }

  /** The stack with the slots of the locals brought up to date. */
  function Overlay(stack: seq<Value>, locals: seq<Binding>): (r: seq<Value>)
    requires |locals| <= |stack|
    ensures |r| == |stack|
  {
    seq(|stack|, i requires 0 <= i < |stack| => if i < |locals| then locals[i].value else stack[i])
  }

  lemma OverlayFrame(scope: Scope, a: seq<Binding>, b: seq<Binding>, stack: seq<Value>)
    requires Frame(scope, a, stack) && SameNames(a, b)
    ensures Overlay(stack, a) == stack
    ensures Frame(scope, b, Overlay(stack, b))
    ensures forall c :: SameNames(a, c) ==> Overlay(Overlay(stack, b), c) == Overlay(stack, c)
  {
  }

  lemma OverlayPush(stack: seq<Value>, v: Value, locals: seq<Binding>)
    requires |locals| <= |stack|
    ensures Overlay(stack + [v], locals) == Overlay(stack, locals) + [v]
  {
  }

  /** The slot chosen by the compiler is the innermost visible declaration of the name. */
  lemma {:induction false} ResolveFinds(scope: Scope, locals: seq<Binding>, stack: seq<Value>, name: string)
    requires Frame(scope, locals, stack)
    ensures Resolve(scope, name) == -1 ==> Find(locals, name) == -1
    ensures var i := Resolve(scope, name);
            i >= 0 && scope[i].depth != -1 ==> i < |locals| && Find(locals, name) == i
  {
  }

  /** Where the machine is after the code of an expression that started at `m`. */
  function After(m: Machine, len: nat, r: Result): Machine
    requires m.Running? && (r.Ok? ==> |r.store.locals| <= |m.stack|)
  {
    match r
    case Failure => Failed(m.out)
    case Ok(v, st) => Running(m.ip + len, Overlay(m.stack, st.locals) + [v], st.globals, m.out)
  }

  lemma Step1(p: Program, m: Machine, op: Byte, arg: seq<Byte>)
    requires m.Running? && |arg| == Operands(op)
    requires CodeAt(p, m.ip, [op] + arg)
    ensures Run(p, m, 1) == Execute(p, op, arg, m.(ip := m.ip + 1 + |arg|))
  {
    CodeSplit(p, m.ip, [op], arg);
    assert Run(p, m, 1) == Run(p, Step(p, m), 0);
    assert p.code[m.ip] == p.code[m.ip..m.ip + 1][0];
  }

  lemma Step0(p: Program, m: Machine, op: Byte)
    requires m.Running? && Operands(op) == 0
    requires CodeAt(p, m.ip, [op])
    ensures Run(p, m, 1) == Execute(p, op, [], m.(ip := m.ip + 1))
  {
    assert [op] + [] == [op];
    Step1(p, m, op, []);
  }

  /** Running one piece of code after another. */
  lemma Chain(p: Program, m: Machine, a: nat, m1: Machine, b: nat, m2: Machine)
    requires Run(p, m, a) == m1 && Run(p, m1, b) == m2
    ensures Run(p, m, a + b) == m2
  {
    RunAdd(p, m, a, b);
  }

  // ---- numbers and names ----

  /** The immediate encodings lose nothing. */
  lemma NumberRuns(p: Program, n: int, k: seq<Const>, m: Machine)
    requires m.Running? && NumberCode(n, k).ok && NumberCode(n, k).consts <= p.consts
    requires CodeAt(p, m.ip, NumberCode(n, k).bytes)
    ensures Run(p, m, 1) == Push(m.(ip := m.ip + |NumberCode(n, k).bytes|), Int(n))
  {
    hide Run, Step, CodeAt, Execute, NumberCode;
    var c := NumberCode(n, k);
    NumberExecutes(p, n, k, m.(ip := m.ip + |c.bytes|));
    assert c.bytes == [c.bytes[0]] + c.bytes[1..];
    Step1(p, m, c.bytes[0], c.bytes[1..]);
  }

  lemma NumberExecutes(p: Program, n: int, k: seq<Const>, m: Machine)
    requires m.Running? && NumberCode(n, k).ok && NumberCode(n, k).consts <= p.consts
    ensures var c := NumberCode(n, k).bytes;
            |c| > 0 && |c[1..]| == Operands(c[0]) && Execute(p, c[0], c[1..], m) == Push(m, Int(n))
  {
    var v: nat := if n < 0 then -n else n;
    if v <= UINT16_MAX {
      assert v == v % 256 + 256 * (v / 256);
    } else if v <= UINT24_MAX {
      ThreeBytes(v);
    }
  }

  lemma ThreeBytes(v: nat)
    requires v <= UINT24_MAX
    ensures v == v % 256 + 256 * ((v / 256) % 256) + 65536 * ((v / 65536) % 256)
  {
    assert v / 65536 == (v / 256) / 256;
  }

  lemma ReadRuns(p: Program, scope: Scope, name: string, k: seq<Const>, st: Store, m: Machine)
    requires m.Running? && Frame(scope, st.locals, m.stack) && m.globals == st.globals
    requires var c := VariableCode(OP_GET_LOCAL, OP_GET_GLOBAL, scope, name, k);
             c.ok && c.consts <= p.consts && CodeAt(p, m.ip, c.bytes)
    ensures Run(p, m, 1) == After(m, 2, Read(name, st))
  {
    hide Run;
    var c := VariableCode(OP_GET_LOCAL, OP_GET_GLOBAL, scope, name, k);
    ResolveFinds(scope, st.locals, m.stack, name);
    OverlayFrame(scope, st.locals, st.locals, m.stack);
    assert c.bytes == [c.bytes[0]] + [c.bytes[1]];
    Step1(p, m, c.bytes[0], [c.bytes[1]]);
  }

  /** Storing the top of the stack, which stays. */
  lemma WriteRuns(p: Program, scope: Scope, name: string, k: seq<Const>, st: Store, m: Machine, base: seq<Value>, v: Value)
    requires m.Running? && Frame(scope, st.locals, base) && m.stack == base + [v] && m.globals == st.globals
    requires var c := VariableCode(OP_SET_LOCAL, OP_SET_GLOBAL, scope, name, k);
             c.ok && c.consts <= p.consts && CodeAt(p, m.ip, c.bytes)
    ensures Run(p, m, 1) == After(m.(stack := base), 2, Write(name, v, st))
  {
    hide Run, Step, CodeAt, Overlay, Frame, Resolve, Find;
    var c := VariableCode(OP_SET_LOCAL, OP_SET_GLOBAL, scope, name, k);
    ResolveFinds(scope, st.locals, base, name);
    OverlayFrame(scope, st.locals, st.locals, base);
    assert c.bytes == [c.bytes[0]] + [c.bytes[1]];
    Step1(p, m, c.bytes[0], [c.bytes[1]]);
    var i := Find(st.locals, name);
    if i >= 0 {
      StoreLocal(scope, st.locals, base, i, Binding(name, v));
    }
  }

  lemma StoreLocal(scope: Scope, locals: seq<Binding>, base: seq<Value>, i: nat, b: Binding)
    requires Frame(scope, locals, base) && i < |locals|
    ensures (base + [b.value])[i := b.value] == Overlay(base, locals[i := b]) + [b.value]
  {
  }

  // ---- expressions ----

  lemma ExprRuns(p: Program, e: Expr, scope: Scope, k: seq<Const>, st: Store, m: Machine) returns (n: nat)
    requires m.Running? && Frame(scope, st.locals, m.stack) && m.globals == st.globals
    requires var c := ExprCode(e, scope, k); c.ok && c.consts <= p.consts && CodeAt(p, m.ip, c.bytes)
    ensures Run(p, m, n) == After(m, |ExprCode(e, scope, k).bytes|, Eval(e, st))
    decreases e, 1
  {
    hide Run, Step, Overlay, CodeAt, EvalOperand, EvalRest, OperandCode, RestCode;
    var first := OperandCode(e.first, scope, k);
    var rest := RestCode(e.rest, scope, first.consts);
    CodeSplit(p, m.ip, first.bytes, rest.bytes);
    n := OperandRuns(p, e.first, scope, k, st, m);
    var r := EvalOperand(e.first, st);
    if r.Ok? {
      OverlayFrame(scope, st.locals, r.store.locals, m.stack);
      var base := Overlay(m.stack, r.store.locals);
      var m1 := After(m, |first.bytes|, r);
      var n2 := RestRuns(p, e.rest, scope, first.consts, r.store, m1, base, r.value);
      Chain(p, m, n, m1, n2, Run(p, m1, n2));
      n := n + n2;
    }
  }

  lemma OperandRuns(p: Program, o: Operand, scope: Scope, k: seq<Const>, st: Store, m: Machine) returns (n: nat)
    requires m.Running? && Frame(scope, st.locals, m.stack) && m.globals == st.globals
    requires var c := OperandCode(o, scope, k); c.ok && c.consts <= p.consts && CodeAt(p, m.ip, c.bytes)
    ensures Run(p, m, n) == After(m, |OperandCode(o, scope, k).bytes|, EvalOperand(o, st))
    decreases o, 0
  {
    hide Run, Step, Overlay, CodeAt, Eval, ExprCode, NumberCode, VariableCode, Read, Write;
    OverlayFrame(scope, st.locals, st.locals, m.stack);
    match o
    case Number(num) =>
      NumberRuns(p, num, k, m);
      n := 1;
    case True =>
      LiteralRuns(p, o, k, scope, st, m);
      n := 1;
    case False =>
      LiteralRuns(p, o, k, scope, st, m);
      n := 1;
    case NilLiteral =>
      LiteralRuns(p, o, k, scope, st, m);
      n := 1;
    case Grouping(e) =>
      n := ExprRuns(p, e, scope, k, st, m);
    case Variable(name) =>
      VariableLength(OP_GET_LOCAL, OP_GET_GLOBAL, scope, name, k);
      ReadRuns(p, scope, name, k, st, m);
      n := 1;
    case Assign(name, value) =>
      n := AssignRuns(p, name, value, scope, k, st, m);
    case Unary(op, rhs) =>
      n := UnaryRuns(p, op, rhs, scope, k, st, m);
  }

  lemma LiteralRuns(p: Program, o: Operand, k: seq<Const>, scope: Scope, st: Store, m: Machine)
    requires o == True || o == False || o == NilLiteral
    requires m.Running? && Frame(scope, st.locals, m.stack) && m.globals == st.globals
    requires CodeAt(p, m.ip, OperandCode(o, scope, k).bytes)
    ensures Run(p, m, 1) == After(m, |OperandCode(o, scope, k).bytes|, EvalOperand(o, st))
  {
    hide Run, Step, Overlay, CodeAt;
    OverlayFrame(scope, st.locals, st.locals, m.stack);
    Step0(p, m, if o == True then OP_TRUE else if o == False then OP_FALSE else OP_NIL);
  }

  lemma UnaryRuns(p: Program, op: UnaryOp, rhs: Expr, scope: Scope, k: seq<Const>, st: Store, m: Machine) returns (n: nat)
    requires m.Running? && Frame(scope, st.locals, m.stack) && m.globals == st.globals
    requires var c := OperandCode(Unary(op, rhs), scope, k); c.ok && c.consts <= p.consts && CodeAt(p, m.ip, c.bytes)
    ensures Run(p, m, n) == After(m, |OperandCode(Unary(op, rhs), scope, k).bytes|, EvalOperand(Unary(op, rhs), st))
    decreases rhs, 2
  {
    hide Run, Step, Overlay, CodeAt, Eval, ExprCode;
    var c := ExprCode(rhs, scope, k);
    var opcode := if op == Not then OP_NOT else OP_NEGATE;
    CodeSplit(p, m.ip, c.bytes, [opcode]);
    n := ExprRuns(p, rhs, scope, k, st, m);
    var r := Eval(rhs, st);
    if r.Ok? {
      var m1 := After(m, |c.bytes|, r);
      Step0(p, m1, opcode);
      Chain(p, m, n, m1, 1, Run(p, m1, 1));
      UnaryTop(Overlay(m.stack, r.store.locals), r.value);
      n := n + 1;
    }
  }

  lemma VariableLength(localOp: Byte, globalOp: Byte, scope: Scope, name: string, k: seq<Const>)
    ensures |VariableCode(localOp, globalOp, scope, name, k).bytes| == 2
  {
  }

  lemma UnaryTop(base: seq<Value>, v: Value)
    ensures (base + [v])[..|base + [v]| - 1] == base && (base + [v])[|base + [v]| - 1] == v
  {
  }

  lemma AssignRuns(p: Program, name: string, value: Expr, scope: Scope, k: seq<Const>, st: Store, m: Machine)
    returns (n: nat)
    requires m.Running? && Frame(scope, st.locals, m.stack) && m.globals == st.globals
    requires var c := OperandCode(Assign(name, value), scope, k);
             c.ok && c.consts <= p.consts && CodeAt(p, m.ip, c.bytes)
    ensures Run(p, m, n) == After(m, |OperandCode(Assign(name, value), scope, k).bytes|, EvalOperand(Assign(name, value), st))
    decreases value, 2
  {
    hide Run, Step, Overlay, CodeAt, Eval, ExprCode, VariableCode, Read, Write;
    var k' := VariableConsts(scope, name, k);
    var v := ExprCode(value, scope, k');
    var s := VariableCode(OP_SET_LOCAL, OP_SET_GLOBAL, scope, name, k);
    SetConsts(scope, name, k);
    VariableLength(OP_SET_LOCAL, OP_SET_GLOBAL, scope, name, k);
    CodeSplit3(p, m.ip, v.bytes, [OP_DUPLICATE], s.bytes);
    n := ExprRuns(p, value, scope, k', st, m);
    var r := Eval(value, st);
    if r.Ok? {
      OverlayFrame(scope, st.locals, r.store.locals, m.stack);
      var base := Overlay(m.stack, r.store.locals);
      var m1 := After(m, |v.bytes|, r);
      Step0(p, m1, OP_DUPLICATE);
      var m2 := m1.(ip := m1.ip + 1);
      WriteRuns(p, scope, name, k, r.store, m2, base, r.value);
      Chain(p, m, n, m1, 1, m2);
      Chain(p, m, n + 1, m2, 1, Run(p, m2, 1));
      n := n + 2;
    }
  }

  lemma SetConsts(scope: Scope, name: string, k: seq<Const>)
    ensures VariableCode(OP_SET_LOCAL, OP_SET_GLOBAL, scope, name, k).consts == VariableConsts(scope, name, k)
  {
  }

  lemma RestRuns(p: Program, ops: Operations, scope: Scope, k: seq<Const>, st: Store, m: Machine, base: seq<Value>, acc: Value)
    returns (n: nat)
    requires m.Running? && Frame(scope, st.locals, base) && m.stack == base + [acc] && m.globals == st.globals
    requires var c := RestCode(ops, scope, k); c.ok && c.consts <= p.consts && CodeAt(p, m.ip, c.bytes)
    ensures Run(p, m, n) == After(m.(stack := base), |RestCode(ops, scope, k).bytes|, EvalRest(ops, acc, st))
    decreases ops, 0
  {
    hide Run, Step, Overlay, CodeAt, Eval, ExprCode, AndCode, OrCode, OperatorCode, Apply;
    OverlayFrame(scope, st.locals, st.locals, base);
    if !ops.End? {
      var c := OperationCode(ops, scope, k);
      assert RestCode(ops, scope, k) == Then(c, RestCode(ops.rest, scope, c.consts));
    }
    match ops
    case End =>
      n := 0;
      RunNone(p, m);
    case Binary(op, rhs, rest) =>
      var c := ExprCode(rhs, scope, k);
      CodeSplit(p, m.ip, c.bytes + OperatorCode(op), RestCode(rest, scope, c.consts).bytes);
      var r := Eval(rhs, st);
      n := BinaryRuns(p, op, rhs, scope, k, st, m, base, acc);
      if r.Ok? && Apply(op, acc, r.value).Some? {
        n := ThenRest(p, rest, scope, c.consts, st, m, base, n, |c.bytes + OperatorCode(op)|, Apply(op, acc, r.value).value, r.store);
      }
    case And(rhs, rest) =>
      var c := ExprCode(rhs, scope, k);
      AndOk(c);
      CodeSplit(p, m.ip, AndCode(c).bytes, RestCode(rest, scope, c.consts).bytes);
      n := AndRuns(p, rhs, scope, k, st, m, base, acc);
      var r := if Falsey(acc) then Ok(acc, st) else Eval(rhs, st);
      if r.Ok? {
        n := ThenRest(p, rest, scope, c.consts, st, m, base, n, |AndCode(c).bytes|, r.value, r.store);
      }
    case Or(rhs, rest) =>
      var c := ExprCode(rhs, scope, k);
      AndOk(c);
      CodeSplit(p, m.ip, OrCode(c).bytes, RestCode(rest, scope, c.consts).bytes);
      n := OrRuns(p, rhs, scope, k, st, m, base, acc);
      var r := if !Falsey(acc) then Ok(acc, st) else Eval(rhs, st);
      if r.Ok? {
        n := ThenRest(p, rest, scope, c.consts, st, m, base, n, |OrCode(c).bytes|, r.value, r.store);
      }
  }

  lemma AndOk(c: Code)
    ensures AndCode(c).ok ==> c.ok
    ensures OrCode(c).ok ==> c.ok
    ensures AndCode(c).consts == OrCode(c).consts == c.consts
  {
  }

  lemma RunNone(p: Program, m: Machine)
    ensures Run(p, m, 0) == m
  {
  }

  /** The rest of a chain after its first operation has left value `v` and store `st'`. */
  lemma ThenRest(p: Program, rest: Operations, scope: Scope, k: seq<Const>, st: Store, m: Machine, base: seq<Value>,
                 n1: nat, len: nat, v: Value, st': Store)
    returns (n: nat)
    requires m.Running? && Frame(scope, st.locals, base) && SameNames(st.locals, st'.locals)
    requires Run(p, m, n1) == After(m.(stack := base), len, Ok(v, st'))
    requires var c := RestCode(rest, scope, k); c.ok && c.consts <= p.consts && CodeAt(p, m.ip + len, c.bytes)
    ensures Run(p, m, n) == After(m.(stack := base), len + |RestCode(rest, scope, k).bytes|, EvalRest(rest, v, st'))
    decreases rest, 1
  {
    hide Run, Step, Overlay, CodeAt, EvalRest, RestCode;
    OverlayFrame(scope, st.locals, st'.locals, base);
    var m1 := Run(p, m, n1);
    var n2 := RestRuns(p, rest, scope, k, st', m1, Overlay(base, st'.locals), v);
    Chain(p, m, n1, m1, n2, Run(p, m1, n2));
    n := n1 + n2;
  }

  lemma BinaryRuns(p: Program, op: BinaryOp, rhs: Expr, scope: Scope, k: seq<Const>, st: Store, m: Machine, base: seq<Value>, acc: Value)
    returns (n: nat)
    requires m.Running? && Frame(scope, st.locals, base) && m.stack == base + [acc] && m.globals == st.globals
    requires var c := ExprCode(rhs, scope, k);
             c.ok && c.consts <= p.consts && CodeAt(p, m.ip, c.bytes + OperatorCode(op))
    ensures var r := Eval(rhs, st);
            Run(p, m, n) ==
              if r.Failure? || Apply(op, acc, r.value) == None then Failed(m.out)
              else After(m.(stack := base), |ExprCode(rhs, scope, k).bytes + OperatorCode(op)|,
                         Ok(Apply(op, acc, r.value).value, r.store))
    decreases rhs, 3
  {
    hide Run, Step, Overlay, CodeAt, Eval, ExprCode, OperatorCode, Apply;
    var c := ExprCode(rhs, scope, k);
    CodeSplit(p, m.ip, c.bytes, OperatorCode(op));
    FramePush(scope, st.locals, base, acc);
    n := ExprRuns(p, rhs, scope, k, st, m);
    var r := Eval(rhs, st);
    if r.Ok? {
      OverlayPush(base, acc, r.store.locals);
      var m1 := After(m, |c.bytes|, r);
      var n2 := OperatorRuns(p, op, m1, Overlay(base, r.store.locals), acc, r.value);
      Chain(p, m, n, m1, n2, Run(p, m1, n2));
      n := n + n2;
    }
  }

  lemma FramePush(scope: Scope, locals: seq<Binding>, base: seq<Value>, v: Value)
    requires Frame(scope, locals, base)
    ensures Frame(scope, locals, base + [v])
  {
  }

  /** The two-opcode operators are the negations of the opposite ones. */
  lemma OperatorRuns(p: Program, op: BinaryOp, m: Machine, base: seq<Value>, a: Value, b: Value) returns (n: nat)
    requires m.Running? && m.stack == base + [a] + [b]
    requires CodeAt(p, m.ip, OperatorCode(op))
    ensures Run(p, m, n) ==
              match Apply(op, a, b)
              case None => Failed(m.out)
              case Some(v) => Running(m.ip + |OperatorCode(op)|, base + [v], m.globals, m.out)
  {
    hide Run, Step, CodeAt, Execute, Apply;
    var c := OperatorCode(op);
    assert c == [c[0]] + c[1..];
    CodeSplit(p, m.ip, [c[0]], c[1..]);
    OperatorStep(p, c[0], m, base, a, b);
    OppositeOperator(op, a, b);
    n := 1;
    if |c| == 2 {
      var m1 := Run(p, m, 1);
      assert c[1..] == [OP_NOT];
      if m1.Running? {
        NotStep(p, m1, base, m1.stack[|m1.stack| - 1]);
        Chain(p, m, 1, m1, 1, Run(p, m1, 1));
      } else {
        StoppedStays(p, m1, 1);
        Chain(p, m, 1, m1, 1, m1);
      }
      n := 2;
    }
  }

  lemma OperatorStep(p: Program, opcode: Byte, m: Machine, base: seq<Value>, a: Value, b: Value)
    requires m.Running? && m.stack == base + [a] + [b] && OperatorOf(opcode).Some? && CodeAt(p, m.ip, [opcode])
    ensures Run(p, m, 1) ==
              match Apply(OperatorOf(opcode).value, a, b)
              case None => Failed(m.out)
              case Some(v) => Running(m.ip + 1, base + [v], m.globals, m.out)
  {
    hide Run, Step, CodeAt, Apply;
    Step0(p, m, opcode);
    assert m.stack[..|m.stack| - 2] == base && m.stack[|m.stack| - 2] == a && m.stack[|m.stack| - 1] == b;
  }

  lemma NotStep(p: Program, m: Machine, base: seq<Value>, v: Value)
    requires m.Running? && m.stack == base + [v] && CodeAt(p, m.ip, [OP_NOT])
    ensures Run(p, m, 1) == Running(m.ip + 1, base + [Bool(Falsey(v))], m.globals, m.out)
  {
    hide Run, Step, CodeAt;
    Step0(p, m, OP_NOT);
    UnaryTop(base, v);
  }

  lemma OppositeOperator(op: BinaryOp, a: Value, b: Value)
    ensures var c := OperatorCode(op);
            && OperatorOf(c[0]).Some?
            && var r := Apply(OperatorOf(c[0]).value, a, b);
               Apply(op, a, b) == if |c| == 2 && r.Some? then Some(Bool(Falsey(r.value))) else r
  {
  }

  /** A jump of 16 bits goes exactly as far as was patched in. */
  lemma JumpRuns(p: Program, m: Machine, op: Byte, distance: nat)
    requires m.Running? && op in {OP_JUMP, OP_JUMP_IF_FALSE, OP_LOOP} && Fits16(distance)
    requires CodeAt(p, m.ip, JumpAhead(op, distance))
    ensures op == OP_JUMP ==> Run(p, m, 1) == m.(ip := m.ip + 3 + distance)
    ensures op == OP_JUMP_IF_FALSE && |m.stack| > 0 ==>
              Run(p, m, 1) == m.(ip := m.ip + 3 + if Falsey(m.stack[|m.stack| - 1]) then distance else 0)
    ensures op == OP_LOOP && distance <= m.ip + 3 ==> Run(p, m, 1) == m.(ip := m.ip + 3 - distance)
  {
    hide Run, Step, CodeAt;
    var arg := [Codegen.Low(distance / 256), Codegen.Low(distance)];
    assert JumpAhead(op, distance) == [op] + arg;
    Step1(p, m, op, arg);
    assert Short(arg) == distance;
  }

  lemma AndRuns(p: Program, rhs: Expr, scope: Scope, k: seq<Const>, st: Store, m: Machine, base: seq<Value>, acc: Value)
    returns (n: nat)
    requires m.Running? && Frame(scope, st.locals, base) && m.stack == base + [acc] && m.globals == st.globals
    requires var c := ExprCode(rhs, scope, k);
             AndCode(c).ok && c.consts <= p.consts && CodeAt(p, m.ip, AndCode(c).bytes)
    ensures Run(p, m, n) == After(m.(stack := base), |AndCode(ExprCode(rhs, scope, k)).bytes|,
                                  if Falsey(acc) then Ok(acc, st) else Eval(rhs, st))
    decreases rhs, 3
  {
    hide Run, Step, Overlay, CodeAt, Eval, ExprCode, JumpAhead;
    var c := ExprCode(rhs, scope, k);
    var body := [OP_POP] + c.bytes;
    JumpLength(OP_JUMP_IF_FALSE, |body|);
    CodeSplit(p, m.ip, JumpOver(OP_JUMP_IF_FALSE, body), body);
    JumpRuns(p, m, OP_JUMP_IF_FALSE, |body|);
    OverlayFrame(scope, st.locals, st.locals, base);
    n := 1;
    if !Falsey(acc) {
      var m1 := m.(ip := m.ip + 3);
      var n2 := PopThenExpr(p, rhs, scope, k, st, m1, base, acc);
      Chain(p, m, 1, m1, n2, Run(p, m1, n2));
      n := 1 + n2;
    }
  }

  /** `OP_POP` and the code of the right operand. */
  lemma PopThenExpr(p: Program, rhs: Expr, scope: Scope, k: seq<Const>, st: Store, m: Machine, base: seq<Value>, acc: Value)
    returns (n: nat)
    requires m.Running? && Frame(scope, st.locals, base) && m.stack == base + [acc] && m.globals == st.globals
    requires var c := ExprCode(rhs, scope, k);
             c.ok && c.consts <= p.consts && CodeAt(p, m.ip, [OP_POP] + c.bytes)
    ensures Run(p, m, n) == After(m.(stack := base), 1 + |ExprCode(rhs, scope, k).bytes|, Eval(rhs, st))
    decreases rhs, 2
  {
    hide Run, Step, Overlay, CodeAt, Eval, ExprCode;
    var c := ExprCode(rhs, scope, k);
    CodeSplit(p, m.ip, [OP_POP], c.bytes);
    Step0(p, m, OP_POP);
    UnaryTop(base, acc);
    var m1 := m.(ip := m.ip + 1, stack := base);
    var n2 := ExprRuns(p, rhs, scope, k, st, m1);
    Chain(p, m, 1, m1, n2, Run(p, m1, n2));
    n := 1 + n2;
  }

  lemma OrRuns(p: Program, rhs: Expr, scope: Scope, k: seq<Const>, st: Store, m: Machine, base: seq<Value>, acc: Value)
    returns (n: nat)
    requires m.Running? && Frame(scope, st.locals, base) && m.stack == base + [acc] && m.globals == st.globals
    requires var c := ExprCode(rhs, scope, k);
             OrCode(c).ok && c.consts <= p.consts && CodeAt(p, m.ip, OrCode(c).bytes)
    ensures Run(p, m, n) == After(m.(stack := base), |OrCode(ExprCode(rhs, scope, k)).bytes|,
                                  if !Falsey(acc) then Ok(acc, st) else Eval(rhs, st))
    decreases rhs, 3
  {
    hide Run, Step, Overlay, CodeAt, Eval, ExprCode, JumpAhead;
    var c := ExprCode(rhs, scope, k);
    var body := [OP_POP] + c.bytes;
    var jump := JumpOver(OP_JUMP, body);
    JumpLength(OP_JUMP, |body|);
    JumpLength(OP_JUMP_IF_FALSE, 3);
    CodeSplit3(p, m.ip, JumpOver(OP_JUMP_IF_FALSE, jump), jump, body);
    JumpRuns(p, m, OP_JUMP_IF_FALSE, 3);
    OverlayFrame(scope, st.locals, st.locals, base);
    if !Falsey(acc) {
      var m1 := m.(ip := m.ip + 3);
      JumpRuns(p, m1, OP_JUMP, |body|);
      Chain(p, m, 1, m1, 1, Run(p, m1, 1));
      n := 2;
    } else {
      var m1 := m.(ip := m.ip + 6);
      var n2 := PopThenExpr(p, rhs, scope, k, st, m1, base, acc);
      Chain(p, m, 1, m1, n2, Run(p, m1, n2));
      n := 1 + n2;
    }
  }

  // ---- statements ----

  function Values(locals: seq<Binding>): (r: seq<Value>)
    ensures |r| == |locals|
  {
    seq(|locals|, i requires 0 <= i < |locals| => locals[i].value)
  }

  /** Between statements the locals in scope are exactly the slots of the stack. */
  ghost predicate Aligned(scope: Scope, locals: seq<Binding>) {
    |scope| == |locals| && forall i :: 0 <= i < |scope| ==> scope[i].name == locals[i].name && scope[i].depth != -1
  }

  function At(ip: nat, st: Store, out: seq<Value>): Machine {
    Running(ip, Values(st.locals), st.globals, out)
  }

  /** After `n` rounds the machine is where the outcome says.  A program that is still looping
      after `fuel` rounds has kept the machine running at least as long. */
  ghost predicate Lands(p: Program, m: Machine, n: nat, ip: nat, scope: Scope, r: Outcome, fuel: nat) {
    match r
    case Normal(st, out) => Aligned(scope, st.locals) && Run(p, m, n) == At(ip, st, out)
    case Error(out) => Run(p, m, n) == Failed(out)
    case Timeout => fuel <= n && Run(p, m, n).Running?
  }

  lemma ChainLands(p: Program, m: Machine, a: nat, m1: Machine, b: nat, ip: nat, scope: Scope, r: Outcome, f1: nat, fuel: nat)
    requires Run(p, m, a) == m1 && Lands(p, m1, b, ip, scope, r, f1) && fuel <= a + f1
    ensures Lands(p, m, a + b, ip, scope, r, fuel)
  {
    RunAdd(p, m, a, b);
  }

  lemma AlignedFrame(scope: Scope, locals: seq<Binding>)
    requires Aligned(scope, locals)
    ensures Frame(scope, locals, Values(locals))
    ensures forall c :: SameNames(locals, c) ==> Aligned(scope, c) && Overlay(Values(locals), c) == Values(c)
  {
    forall c | SameNames(locals, c)
      ensures Overlay(Values(locals), c) == Values(c)
    {
    }
  }

  /** An expression evaluated between statements leaves its value on top of the slots. */
  lemma ExprAt(p: Program, e: Expr, scope: Scope, k: seq<Const>, ip: nat, st: Store, out: seq<Value>) returns (n: nat)
    requires Aligned(scope, st.locals)
    requires var c := ExprCode(e, scope, k); c.ok && c.consts <= p.consts && CodeAt(p, ip, c.bytes)
    ensures var r := Eval(e, st);
            var end := ip + |ExprCode(e, scope, k).bytes|;
            Run(p, At(ip, st, out), n) ==
              if r.Failure? then Failed(out) else Push(At(end, r.store, out), r.value)
    ensures Eval(e, st).Ok? ==> Aligned(scope, Eval(e, st).store.locals)
  {
    hide Run, Overlay, Eval, ExprCode, CodeAt, Frame, Values;
    AlignedFrame(scope, st.locals);
    n := ExprRuns(p, e, scope, k, st, At(ip, st, out));
  }

  /** `OP_POP` of a value above the slots. */
  lemma PopAt(p: Program, ip: nat, st: Store, out: seq<Value>, v: Value)
    requires CodeAt(p, ip, [OP_POP])
    ensures Run(p, Push(At(ip, st, out), v), 1) == At(ip + 1, st, out)
  {
    hide Run, CodeAt, Values;
    Step0(p, Push(At(ip, st, out), v), OP_POP);
    UnaryTop(Values(st.locals), v);
  }

  /** `endScope`: the slots of the scope that ends go away. */
  lemma {:induction false} PopsRun(p: Program, ip: nat, n: nat, st: Store, out: seq<Value>)
    requires n <= |st.locals| && CodeAt(p, ip, PopCode(n))
    ensures Run(p, At(ip, st, out), n) == At(ip + n, st.(locals := st.locals[..|st.locals| - n]), out)
    decreases n
  {
    hide Run, CodeAt, Values;
    if n == 0 {
      RunNone(p, At(ip, st, out));
      assert st.locals[..|st.locals|] == st.locals;
    } else {
      var l := |st.locals| - 1;
      assert PopCode(n) == [OP_POP] + PopCode(n - 1);
      CodeSplit(p, ip, [OP_POP], PopCode(n - 1));
      var st1 := st.(locals := st.locals[..l]);
      ValuesLast(st.locals);
      assert At(ip, st, out) == Push(At(ip, st1, out), st.locals[l].value);
      PopAt(p, ip, st1, out, st.locals[l].value);
      PopsRun(p, ip + 1, n - 1, st1, out);
      Chain(p, At(ip, st, out), 1, At(ip + 1, st1, out), n - 1, Run(p, At(ip + 1, st1, out), n - 1));
      assert st1.locals[..|st1.locals| - (n - 1)] == st.locals[..|st.locals| - n];
    }
  }

  lemma ValuesLast(locals: seq<Binding>)
    requires |locals| > 0
    ensures Values(locals) == Values(locals[..|locals| - 1]) + [locals[|locals| - 1].value]
  {
  }

  lemma ValuesPush(locals: seq<Binding>, b: Binding)
    ensures Values(locals + [b]) == Values(locals) + [b.value]
  {
  }

  /** A new cell, and its initialiser. */
  lemma InitRuns(p: Program, init: OptExpr, scope: Scope, k: seq<Const>, ip: nat, st: Store, out: seq<Value>) returns (n: nat)
    requires Frame(scope, st.locals, Values(st.locals) + [NilVal])
    requires var c := InitCode(init, scope, k); c.ok && c.consts <= p.consts && CodeAt(p, ip, c.bytes)
    ensures var r := EvalOpt(init, st);
            var end := ip + |InitCode(init, scope, k).bytes|;
            Run(p, At(ip, st, out), n) ==
              if r.Failure? then Failed(out) else Push(At(end, r.store, out), r.value)
  {
    hide Run, Overlay, Eval, ExprCode, CodeAt, Frame, Values;
    var m := At(ip, st, out);
    var head := [OP_NIL, OP_SET_CELL_TYPE];
    assert head == [OP_NIL] + [OP_SET_CELL_TYPE];
    var tail := [OP_DUPLICATE, OP_INITIALISE];
    if init.SomeExpr? {
      var c := ExprCode(init.e, scope, k);
      CodeSplit3(p, ip, head, c.bytes, tail);
    }
    CodeSplit(p, ip, [OP_NIL], [OP_SET_CELL_TYPE]);
    Step0(p, m, OP_NIL);
    var m1 := Push(m.(ip := ip + 1), NilVal);
    Step0(p, m1, OP_SET_CELL_TYPE);
    UnaryTop(Values(st.locals), NilVal);
    var m2 := m1.(ip := ip + 2);
    Chain(p, m, 1, m1, 1, m2);
    n := 2;
    if init.SomeExpr? {
      var c := ExprCode(init.e, scope, k);
      var n1 := ExprRuns(p, init.e, scope, k, st, m2);
      Chain(p, m, 2, m2, n1, Run(p, m2, n1));
      n := 2 + n1;
      var r := Eval(init.e, st);
      if r.Ok? {
        var m3 := Run(p, m2, n1);
        ValuesOverlay(st.locals, r.store.locals);
        StoreInit(p, m3, Values(r.store.locals), r.value);
        Chain(p, m, n, m3, 2, Run(p, m3, 2));
        n := n + 2;
      }
    }
  }

  lemma ValuesOverlay(a: seq<Binding>, b: seq<Binding>)
    requires SameNames(a, b)
    ensures Overlay(Values(a) + [NilVal], b) == Values(b) + [NilVal]
  {
  }

  lemma StoreInit(p: Program, m: Machine, base: seq<Value>, v: Value)
    requires m.Running? && m.stack == base + [NilVal] + [v]
    requires CodeAt(p, m.ip, [OP_DUPLICATE, OP_INITIALISE])
    ensures Run(p, m, 2) == m.(ip := m.ip + 2, stack := base + [v])
  {
    hide Run, CodeAt;
    assert [OP_DUPLICATE, OP_INITIALISE] == [OP_DUPLICATE] + [OP_INITIALISE];
    CodeSplit(p, m.ip, [OP_DUPLICATE], [OP_INITIALISE]);
    Step0(p, m, OP_DUPLICATE);
    var m1 := m.(ip := m.ip + 1);
    Step0(p, m1, OP_INITIALISE);
    var l := |m.stack|;
    assert m.stack[..l - 1][l - 2 := v] == base + [v];
    Chain(p, m, 1, m1, 1, Run(p, m1, 1));
  }

  lemma DeclRuns(p: Program, d: Decl, depth: nat, scope: Scope, k: seq<Const>, ip: nat, st: Store, out: seq<Value>, fuel: nat)
    returns (n: nat)
    requires Aligned(scope, st.locals)
    requires var c := DeclCode(d, depth, scope, k); c.ok && c.consts <= p.consts && CodeAt(p, ip, c.bytes)
    ensures Lands(p, At(ip, st, out), n, ip + |DeclCode(d, depth, scope, k).bytes|, DeclScope(d, depth, scope),
                  ExecDecl(d, depth, st, out, fuel), fuel)
    decreases fuel, d, 0
  {
    hide Run, Eval, ExprCode, CodeAt, Frame, Values, StmtCode, Exec, InitCode;
    match d
    case Statement(s) =>
      n := StmtRuns(p, s, depth, scope, k, ip, st, out, fuel);
    case Var(name, init) =>
      if depth == 0 {
        n := GlobalRuns(p, name, init, scope, k, ip, st, out);
      } else {
        var pending := scope + [Local(name, -1)];
        PendingFrame(scope, name, st.locals);
        n := InitRuns(p, init, pending, k, ip, st, out);
        var r := EvalOpt(init, st);
        if r.Ok? {
          ValuesPush(r.store.locals, Binding(name, r.value));
        }
      }
  }

  lemma PendingFrame(scope: Scope, name: string, locals: seq<Binding>)
    requires Aligned(scope, locals)
    ensures Frame(scope + [Local(name, -1)], locals, Values(locals) + [NilVal])
    ensures Frame(scope, locals, Values(locals) + [NilVal])
  {
  }

  lemma GlobalRuns(p: Program, name: string, init: OptExpr, scope: Scope, k: seq<Const>, ip: nat, st: Store, out: seq<Value>)
    returns (n: nat)
    requires Aligned(scope, st.locals)
    requires var c := DeclCode(Var(name, init), 0, scope, k); c.ok && c.consts <= p.consts && CodeAt(p, ip, c.bytes)
    ensures var r := EvalOpt(init, st);
            Run(p, At(ip, st, out), n) ==
              if r.Failure? then Failed(out)
              else At(ip + |DeclCode(Var(name, init), 0, scope, k).bytes|,
                      r.store.(globals := r.store.globals[name := r.value]), out)
  {
    hide Run, Eval, ExprCode, CodeAt, Frame, Values, InitCode;
    var g := ConstCode(OP_DEFINE_GLOBAL, k, NameConst(name));
    var c := InitCode(init, scope, g.consts);
    CodeSplit(p, ip, c.bytes, g.bytes);
    PendingFrame(scope, name, st.locals);
    n := InitRuns(p, init, scope, g.consts, ip, st, out);
    var r := EvalOpt(init, st);
    if r.Ok? {
      var m1 := Run(p, At(ip, st, out), n);
      assert g.bytes == [OP_DEFINE_GLOBAL] + [g.bytes[1]];
      Step1(p, m1, OP_DEFINE_GLOBAL, [g.bytes[1]]);
      UnaryTop(Values(r.store.locals), r.value);
      Chain(p, At(ip, st, out), n, m1, 1, Run(p, m1, 1));
      n := n + 1;
    }
  }

  lemma DeclsRun(p: Program, ds: Decls, depth: nat, scope: Scope, k: seq<Const>, ip: nat, st: Store, out: seq<Value>, fuel: nat)
    returns (n: nat)
    requires Aligned(scope, st.locals)
    requires var c := DeclsCode(ds, depth, scope, k); c.ok && c.consts <= p.consts && CodeAt(p, ip, c.bytes)
    ensures Lands(p, At(ip, st, out), n, ip + |DeclsCode(ds, depth, scope, k).bytes|, DeclsScope(ds, depth, scope),
                  ExecDecls(ds, depth, st, out, fuel), fuel)
    decreases fuel, ds, 0
  {
    hide Run, CodeAt, Values, DeclCode, ExecDecl;
    match ds
    case Nil =>
      n := 0;
      RunNone(p, At(ip, st, out));
    case Cons(d, rest) =>
      var c := DeclCode(d, depth, scope, k);
      var inner := DeclScope(d, depth, scope);
      var c' := DeclsCode(rest, depth, inner, c.consts);
      CodeSplit(p, ip, c.bytes, c'.bytes);
      n := DeclRuns(p, d, depth, scope, k, ip, st, out, fuel);
      var r := ExecDecl(d, depth, st, out, fuel);
      if r.Normal? {
        var ip1 := ip + |c.bytes|;
        var n2 := DeclsRun(p, rest, depth, inner, c.consts, ip1, r.store, r.out, fuel);
        ChainLands(p, At(ip, st, out), n, At(ip1, r.store, r.out), n2, ip1 + |c'.bytes|, DeclsScope(ds, depth, scope),
                   ExecDecls(rest, depth, r.store, r.out, fuel), fuel, fuel);
        n := n + n2;
      }
  }

  lemma StmtRuns(p: Program, s: Stmt, depth: nat, scope: Scope, k: seq<Const>, ip: nat, st: Store, out: seq<Value>, fuel: nat)
    returns (n: nat)
    requires Aligned(scope, st.locals)
    requires var c := StmtCode(s, depth, scope, k); c.ok && c.consts <= p.consts && CodeAt(p, ip, c.bytes)
    ensures Lands(p, At(ip, st, out), n, ip + |StmtCode(s, depth, scope, k).bytes|, scope,
                  Exec(s, depth, st, out, fuel), fuel)
    decreases fuel, s, 1
  {
    hide Run, CodeAt, Values, ExprCode, Eval, DeclsCode, ExecDecls, IfCode, WhileCode, LoopCode, Loop;
    match s
    case Expression(e) =>
      var c := ExprCode(e, scope, k);
      CodeSplit(p, ip, c.bytes, [OP_POP]);
      n := ExprAt(p, e, scope, k, ip, st, out);
      var r := Eval(e, st);
      if r.Ok? {
        var ip1 := ip + |c.bytes|;
        PopAt(p, ip1, r.store, out, r.value);
        Chain(p, At(ip, st, out), n, Push(At(ip1, r.store, out), r.value), 1, At(ip1 + 1, r.store, out));
        n := n + 1;
      }
    case Print(e) =>
      n := PrintRuns(p, e, scope, k, ip, st, out);
    case Block(decls) =>
      n := BlockRuns(p, decls, depth, scope, k, ip, st, out, fuel);
    case If(test, thn, els) =>
      n := IfRuns(p, test, thn, els, depth, scope, k, ip, st, out, fuel);
    case While(test, body) =>
      n := WhileRuns(p, test, body, depth, scope, k, ip, st, out, fuel);
    case For(init, cond, step, body) =>
      n := ForRuns(p, init, cond, step, body, depth, scope, k, ip, st, out, fuel);
  }

  lemma PrintRuns(p: Program, e: Expr, scope: Scope, k: seq<Const>, ip: nat, st: Store, out: seq<Value>) returns (n: nat)
    requires Aligned(scope, st.locals)
    requires var c := ExprCode(e, scope, k); c.ok && c.consts <= p.consts && CodeAt(p, ip, c.bytes + [OP_PRINT])
    ensures var r := Eval(e, st);
            Run(p, At(ip, st, out), n) ==
              if r.Failure? then Failed(out)
              else At(ip + |ExprCode(e, scope, k).bytes| + 1, r.store, out + [r.value])
    ensures Eval(e, st).Ok? ==> Aligned(scope, Eval(e, st).store.locals)
  {
    hide Run, CodeAt, Values, ExprCode, Eval;
    var c := ExprCode(e, scope, k);
    CodeSplit(p, ip, c.bytes, [OP_PRINT]);
    n := ExprAt(p, e, scope, k, ip, st, out);
    var r := Eval(e, st);
    if r.Ok? {
      var m1 := Push(At(ip + |c.bytes|, r.store, out), r.value);
      Step0(p, m1, OP_PRINT);
      UnaryTop(Values(r.store.locals), r.value);
      Chain(p, At(ip, st, out), n, m1, 1, Run(p, m1, 1));
      n := n + 1;
    }
  }

  /** The pops at the end of a scope. */
  lemma LeaveRuns(p: Program, m: Machine, n0: nat, ip: nat, inner: Scope, scope: Scope, r: Outcome, fuel: nat) returns (n: nat)
    requires Lands(p, m, n0, ip, inner, r, fuel) && scope <= inner
    requires CodeAt(p, ip, PopCode(|inner| - |scope|))
    ensures Lands(p, m, n, ip + |inner| - |scope|, scope, Leave(r, |scope|), fuel)
  {
    hide Run, CodeAt, Values;
    n := n0;
    if r.Normal? {
      var d := |inner| - |scope|;
      PopsRun(p, ip, d, r.store, r.out);
      Chain(p, m, n0, At(ip, r.store, r.out), d, Run(p, At(ip, r.store, r.out), d));
      n := n0 + d;
    }
  }

  lemma BlockRuns(p: Program, decls: Decls, depth: nat, scope: Scope, k: seq<Const>, ip: nat, st: Store, out: seq<Value>, fuel: nat)
    returns (n: nat)
    requires Aligned(scope, st.locals)
    requires var c := StmtCode(Block(decls), depth, scope, k); c.ok && c.consts <= p.consts && CodeAt(p, ip, c.bytes)
    ensures Lands(p, At(ip, st, out), n, ip + |StmtCode(Block(decls), depth, scope, k).bytes|, scope,
                  Exec(Block(decls), depth, st, out, fuel), fuel)
    decreases fuel, decls, 1
  {
    hide Run, CodeAt, Values, DeclsCode, ExecDecls;
    var c := DeclsCode(decls, depth + 1, scope, k);
    var inner := DeclsScope(decls, depth + 1, scope);
    CodeSplit(p, ip, c.bytes, PopCode(|inner| - |scope|));
    var n0 := DeclsRun(p, decls, depth + 1, scope, k, ip, st, out, fuel);
    n := LeaveRuns(p, At(ip, st, out), n0, ip + |c.bytes|, inner, scope, ExecDecls(decls, depth + 1, st, out, fuel), fuel);
  }

  /** A condition and the jump that tests it; the value is still on the stack. */
  lemma TestRuns(p: Program, test: Expr, distance: nat, scope: Scope, k: seq<Const>, ip: nat, st: Store, out: seq<Value>)
    returns (n: nat)
    requires Aligned(scope, st.locals) && Fits16(distance)
    requires var c := ExprCode(test, scope, k);
             c.ok && c.consts <= p.consts && CodeAt(p, ip, c.bytes + JumpAhead(OP_JUMP_IF_FALSE, distance))
    ensures var r := Eval(test, st);
            var next := ip + |ExprCode(test, scope, k).bytes| + 3;
            Run(p, At(ip, st, out), n) ==
              if r.Failure? then Failed(out)
              else Push(At(next + (if Falsey(r.value) then distance else 0), r.store, out), r.value)
    ensures Eval(test, st).Ok? ==> Aligned(scope, Eval(test, st).store.locals)
  {
    hide Run, CodeAt, Values, ExprCode, Eval;
    var c := ExprCode(test, scope, k);
    CodeSplit(p, ip, c.bytes, JumpAhead(OP_JUMP_IF_FALSE, distance));
    n := ExprAt(p, test, scope, k, ip, st, out);
    var r := Eval(test, st);
    if r.Ok? {
      var m1 := Push(At(ip + |c.bytes|, r.store, out), r.value);
      JumpRuns(p, m1, OP_JUMP_IF_FALSE, distance);
      Chain(p, At(ip, st, out), n, m1, 1, Run(p, m1, 1));
      n := n + 1;
    }
  }

  /** A condition, its jump and the `OP_POP` on the side that is taken. */
  lemma BranchRuns(p: Program, test: Expr, distance: nat, scope: Scope, k: seq<Const>, ip: nat, st: Store, out: seq<Value>)
    returns (n: nat)
    requires Aligned(scope, st.locals) && Fits16(distance)
    requires var c := ExprCode(test, scope, k);
             && c.ok && c.consts <= p.consts && CodeAt(p, ip, c.bytes + JumpAhead(OP_JUMP_IF_FALSE, distance))
             && CodeAt(p, ip + |c.bytes| + 3, [OP_POP]) && CodeAt(p, ip + |c.bytes| + 3 + distance, [OP_POP])
    ensures var r := Eval(test, st);
            var next := ip + |ExprCode(test, scope, k).bytes| + 4;
            Run(p, At(ip, st, out), n) ==
              if r.Failure? then Failed(out)
              else At(next + (if Falsey(r.value) then distance else 0), r.store, out)
    ensures Eval(test, st).Ok? ==> Aligned(scope, Eval(test, st).store.locals)
    ensures Eval(test, st).Ok? ==> 1 <= n
  {
    hide Run, CodeAt, Values, ExprCode, Eval;
    n := TestRuns(p, test, distance, scope, k, ip, st, out);
    var r := Eval(test, st);
    if r.Ok? {
      var ip1 := ip + |ExprCode(test, scope, k).bytes| + 3 + if Falsey(r.value) then distance else 0;
      PopAt(p, ip1, r.store, out, r.value);
      Chain(p, At(ip, st, out), n, Push(At(ip1, r.store, out), r.value), 1, At(ip1 + 1, r.store, out));
      n := n + 1;
    }
  }

  /** Where the parts of the code of `if` are. */
  lemma IfPlaces(p: Program, ip: nat, t: Code, a: Code, b: Code)
    requires CodeAt(p, ip, IfCode(t, a, b).bytes)
    ensures var thenLen, elseLen, ip1 := |a.bytes| + 4, |b.bytes| + 1, ip + |t.bytes| + 3;
            && |IfCode(t, a, b).bytes| == |t.bytes| + 3 + thenLen + elseLen
            && CodeAt(p, ip, t.bytes + JumpAhead(OP_JUMP_IF_FALSE, thenLen))
            && CodeAt(p, ip1, [OP_POP]) && CodeAt(p, ip1 + 1, a.bytes)
            && CodeAt(p, ip1 + 1 + |a.bytes|, JumpAhead(OP_JUMP, elseLen))
            && CodeAt(p, ip1 + thenLen, [OP_POP]) && CodeAt(p, ip1 + thenLen + 1, b.bytes)
            && (IfCode(t, a, b).ok ==> t.ok && a.ok && b.ok && Fits16(thenLen) && Fits16(elseLen))
  {
    hide CodeAt, JumpAhead;
    var elseBranch := [OP_POP] + b.bytes;
    var toEnd := JumpOver(OP_JUMP, elseBranch);
    var thenBranch := [OP_POP] + a.bytes + toEnd;
    JumpLength(OP_JUMP_IF_FALSE, |thenBranch|);
    JumpLength(OP_JUMP, |elseBranch|);
    CodeSplit3(p, ip, t.bytes + JumpOver(OP_JUMP_IF_FALSE, thenBranch), thenBranch, elseBranch);
    CodeSplit3(p, ip + |t.bytes| + 3, [OP_POP], a.bytes, toEnd);
    CodeSplit(p, ip + |t.bytes| + 3 + |thenBranch|, [OP_POP], b.bytes);
  }

  lemma IfRuns(p: Program, test: Expr, thn: Stmt, els: OptStmt, depth: nat, scope: Scope, k: seq<Const>,
               ip: nat, st: Store, out: seq<Value>, fuel: nat)
    returns (n: nat)
    requires Aligned(scope, st.locals)
    requires var c := StmtCode(If(test, thn, els), depth, scope, k); c.ok && c.consts <= p.consts && CodeAt(p, ip, c.bytes)
    ensures Lands(p, At(ip, st, out), n, ip + |StmtCode(If(test, thn, els), depth, scope, k).bytes|, scope,
                  Exec(If(test, thn, els), depth, st, out, fuel), fuel)
    decreases fuel, If(test, thn, els), 0
  {
    hide Run, CodeAt, Values, ExprCode, Eval, JumpAhead, IfCode, OptStmtCode, Aligned;
    var t := ExprCode(test, scope, k);
    var a := StmtCode(thn, depth, scope, t.consts);
    var b := OptStmtCode(els, depth, scope, a.consts);
    IfConsts(t, a, b);
    IfPlaces(p, ip, t, a, b);
    var thenLen, elseLen := |a.bytes| + 4, |b.bytes| + 1;
    n := BranchRuns(p, test, thenLen, scope, k, ip, st, out);
    var r := Eval(test, st);
    if r.Ok? {
      var ip2 := ip + |t.bytes| + 4 + if Falsey(r.value) then thenLen else 0;
      var e := Branch(r.value, thn, els, depth, r.store, out, fuel);
      var n2: nat;
      if Falsey(r.value) {
        n2 := ElseRuns(p, els, depth, scope, a.consts, ip2, r.store, out, fuel);
      } else {
        n2 := ThenRuns(p, thn, depth, scope, t.consts, ip2, elseLen, r.store, out, fuel);
      }
      ChainLands(p, At(ip, st, out), n, At(ip2, r.store, out), n2, ip + |t.bytes| + 3 + thenLen + elseLen, scope, e, fuel, fuel);
      n := n + n2;
    }
  }

  lemma IfConsts(t: Code, a: Code, b: Code)
    ensures IfCode(t, a, b).consts == b.consts
  {
  }

  function Branch(test: Value, thn: Stmt, els: OptStmt, depth: nat, st: Store, out: seq<Value>, fuel: nat): Outcome {
    if !Falsey(test) then Exec(thn, depth, st, out, fuel)
    else match els
         case NoStmt => Normal(st, out)
         case SomeStmt(x) => Exec(x, depth, st, out, fuel)
  }

  /** The branch of a true condition, with the jump over the other one. */
  lemma ThenRuns(p: Program, thn: Stmt, depth: nat, scope: Scope, k: seq<Const>, ip: nat, distance: nat,
                 st: Store, out: seq<Value>, fuel: nat)
    returns (n: nat)
    requires Aligned(scope, st.locals) && Fits16(distance)
    requires var c := StmtCode(thn, depth, scope, k);
             && c.ok && c.consts <= p.consts && CodeAt(p, ip, c.bytes)
             && CodeAt(p, ip + |c.bytes|, JumpAhead(OP_JUMP, distance))
    ensures Lands(p, At(ip, st, out), n, ip + |StmtCode(thn, depth, scope, k).bytes| + 3 + distance, scope,
                  Exec(thn, depth, st, out, fuel), fuel)
    decreases fuel, thn, 2
  {
    hide Run, CodeAt, Values, JumpAhead, StmtCode, Exec, Lands;
    n := StmtRuns(p, thn, depth, scope, k, ip, st, out, fuel);
    n := ThenJump(p, At(ip, st, out), n, ip + |StmtCode(thn, depth, scope, k).bytes|, distance, scope,
                  Exec(thn, depth, st, out, fuel), fuel);
  }

  /** The branch of a false one. */
  lemma ElseRuns(p: Program, els: OptStmt, depth: nat, scope: Scope, k: seq<Const>, ip: nat, st: Store, out: seq<Value>, fuel: nat)
    returns (n: nat)
    requires Aligned(scope, st.locals)
    requires var c := OptStmtCode(els, depth, scope, k); c.ok && c.consts <= p.consts && CodeAt(p, ip, c.bytes)
    ensures Lands(p, At(ip, st, out), n, ip + |OptStmtCode(els, depth, scope, k).bytes|, scope,
                  if els.SomeStmt? then Exec(els.s, depth, st, out, fuel) else Normal(st, out), fuel)
    decreases fuel, els, 2
  {
    hide Run, CodeAt, Values, StmtCode, Exec;
    if els.SomeStmt? {
      n := StmtRuns(p, els.s, depth, scope, k, ip, st, out, fuel);
    } else {
      n := 0;
      RunNone(p, At(ip, st, out));
    }
  }

  /** A statement followed by a forward jump. */
  lemma ThenJump(p: Program, m: Machine, n0: nat, ip: nat, distance: nat, scope: Scope, r: Outcome, fuel: nat) returns (n: nat)
    requires Lands(p, m, n0, ip, scope, r, fuel) && Fits16(distance)
    requires CodeAt(p, ip, JumpAhead(OP_JUMP, distance))
    ensures Lands(p, m, n, ip + 3 + distance, scope, r, fuel)
  {
    hide Run, CodeAt, Values, JumpAhead;
    n := n0;
    if r.Normal? {
      var m1 := At(ip, r.store, r.out);
      JumpRuns(p, m1, OP_JUMP, distance);
      Chain(p, m, n0, m1, 1, Run(p, m1, 1));
      n := n0 + 1;
    }
  }

  /** A statement followed by a jump back. */
  lemma ThenLoop(p: Program, m: Machine, n0: nat, ip: nat, distance: nat, scope: Scope, r: Outcome, fuel: nat) returns (n: nat)
    requires Lands(p, m, n0, ip, scope, r, fuel) && Fits16(distance) && distance <= ip + 3
    requires CodeAt(p, ip, JumpAhead(OP_LOOP, distance))
    ensures Lands(p, m, n, ip + 3 - distance, scope, r, fuel)
    ensures r.Normal? ==> 1 <= n
  {
    hide Run, CodeAt, Values, JumpAhead;
    n := n0;
    if r.Normal? {
      var m1 := At(ip, r.store, r.out);
      JumpRuns(p, m1, OP_LOOP, distance);
      Chain(p, m, n0, m1, 1, Run(p, m1, 1));
      n := n0 + 1;
    }
  }

  lemma WhileRuns(p: Program, test: Expr, body: Stmt, depth: nat, scope: Scope, k: seq<Const>,
                  ip: nat, st: Store, out: seq<Value>, fuel: nat)
    returns (n: nat)
    requires Aligned(scope, st.locals)
    requires var c := StmtCode(While(test, body), depth, scope, k); c.ok && c.consts <= p.consts && CodeAt(p, ip, c.bytes)
    ensures Lands(p, At(ip, st, out), n, ip + |StmtCode(While(test, body), depth, scope, k).bytes|, scope,
                  Exec(While(test, body), depth, st, out, fuel), fuel)
    decreases fuel, While(test, body), 0
  {
    hide Run, CodeAt, Values, ExprCode, Eval, JumpAhead;
    var t := ExprCode(test, scope, k);
    var b := StmtCode(body, depth, scope, t.consts);
    var back := |t.bytes| + |b.bytes| + 7;
    var loop := JumpAhead(OP_LOOP, back);
    var rest := [OP_POP] + b.bytes + loop;
    var exitJump := |rest|;
    JumpLength(OP_JUMP_IF_FALSE, exitJump);
    JumpLength(OP_LOOP, back);
    var ip1 := ip + |t.bytes| + 3;
    CodeSplit3(p, ip, t.bytes + JumpAhead(OP_JUMP_IF_FALSE, exitJump), rest, [OP_POP]);
    CodeSplit3(p, ip1, [OP_POP], b.bytes, loop);
    var m := At(ip, st, out);
    n := BranchRuns(p, test, exitJump, scope, k, ip, st, out);
    var r := Eval(test, st);
    if r.Ok? && !Falsey(r.value) {
      var m1 := At(ip1 + 1, r.store, out);
      var n1 := StmtRuns(p, body, depth, scope, t.consts, ip1 + 1, r.store, out, fuel);
      var e := Exec(body, depth, r.store, out, fuel);
      n1 := ThenLoop(p, m1, n1, ip1 + 1 + |b.bytes|, back, scope, e, fuel);
      ChainLands(p, m, n, m1, n1, ip, scope, e, fuel, fuel);
      n := n + n1;
      if e.Normal? && fuel > 0 {
        var n2 := WhileRuns(p, test, body, depth, scope, k, ip, e.store, e.out, fuel - 1);
        ChainLands(p, m, n, At(ip, e.store, e.out), n2, ip1 + exitJump + 1, scope,
                   Exec(While(test, body), depth, e.store, e.out, fuel - 1), fuel - 1, fuel);
        n := n + n2;
      }
    }
  }

  lemma ForRuns(p: Program, init: Decls, cond: OptExpr, step: OptExpr, body: Stmt, depth: nat, scope: Scope, k: seq<Const>,
                ip: nat, st: Store, out: seq<Value>, fuel: nat)
    returns (n: nat)
    requires Aligned(scope, st.locals)
    requires var c := StmtCode(For(init, cond, step, body), depth, scope, k);
             c.ok && c.consts <= p.consts && CodeAt(p, ip, c.bytes)
    ensures Lands(p, At(ip, st, out), n, ip + |StmtCode(For(init, cond, step, body), depth, scope, k).bytes|, scope,
                  Exec(For(init, cond, step, body), depth, st, out, fuel), fuel)
    decreases fuel, For(init, cond, step, body), 0
  {
    hide Run, CodeAt, Values, ExprCode, Eval, JumpAhead, DeclsCode, ExecDecls, Loop;
    var i := DeclsCode(init, depth + 1, scope, k);
    var inner := DeclsScope(init, depth + 1, scope);
    var loop := ForLoop(cond, step, body, depth + 1, inner, i.consts);
    CodeSplit3(p, ip, i.bytes, loop.bytes, PopCode(|inner| - |scope|));
    var m := At(ip, st, out);
    n := DeclsRun(p, init, depth + 1, scope, k, ip, st, out, fuel);
    var r := ExecDecls(init, depth + 1, st, out, fuel);
    if r.Normal? {
      var ip1 := ip + |i.bytes|;
      var n1 := LoopRuns(p, cond, step, body, depth + 1, inner, i.consts, ip1, r.store, r.out, fuel);
      var e := Loop(cond, step, body, depth + 1, r.store, r.out, fuel);
      ChainLands(p, m, n, At(ip1, r.store, r.out), n1, ip1 + |loop.bytes|, inner, e, fuel, fuel);
      n := LeaveRuns(p, m, n + n1, ip1 + |loop.bytes|, inner, scope, e, fuel);
    }
  }

  /** Where the parts of the rounds of a `for` loop lie, and that their jumps reach them. */
  lemma RoundsLayout(p: Program, hasStep: bool, u: Code, b: Code, testLen: nat, stepAt: nat)
    requires testLen <= stepAt && CodeAt(p, stepAt, RoundsCode(hasStep, u, b, testLen).bytes)
    ensures var bodyAt := stepAt + if hasStep then |u.bytes| + 7 else 0;
            var end := bodyAt + |b.bytes| + 3;
            && (hasStep ==>
                  && CodeAt(p, stepAt, JumpAhead(OP_JUMP, |u.bytes| + 4)) && CodeAt(p, stepAt + 3, u.bytes + [OP_POP])
                  && CodeAt(p, stepAt + |u.bytes| + 4, JumpAhead(OP_LOOP, bodyAt - stepAt + testLen)))
            && CodeAt(p, bodyAt, b.bytes)
            && CodeAt(p, bodyAt + |b.bytes|, JumpAhead(OP_LOOP, end - if hasStep then stepAt + 3 else stepAt - testLen))
            && |RoundsCode(hasStep, u, b, testLen).bytes| == end - stepAt
  {
    hide CodeAt, JumpAhead;
    var back := (if hasStep then |u.bytes| + 4 else testLen) + |b.bytes| + 3;
    JumpLength(OP_LOOP, back);
    StepLength(hasStep, u, testLen);
    CodeSplit3(p, stepAt, StepCode(hasStep, u, testLen).bytes, b.bytes, JumpAhead(OP_LOOP, back));
    if hasStep {
      var toTest := JumpAhead(OP_LOOP, testLen + |u.bytes| + 7);
      var step := u.bytes + [OP_POP] + toTest;
      JumpLength(OP_LOOP, testLen + |u.bytes| + 7);
      JumpLength(OP_JUMP, |step|);
      CodeSplit(p, stepAt, JumpOver(OP_JUMP, step), step);
      CodeSplit(p, stepAt + 3, u.bytes + [OP_POP], toTest);
    }
  }

  /** The condition of a `for` loop in front of its rounds. */
  lemma LoopLayout(p: Program, hasCond: bool, hasStep: bool, t: Code, u: Code, b: Code, ip: nat)
    requires CodeAt(p, ip, LoopCode(hasCond, hasStep, t, u, b).bytes)
    ensures var testLen := if hasCond then |t.bytes| + 4 else 0;
            var rounds := RoundsCode(hasStep, u, b, testLen);
            var exitJump := 1 + |rounds.bytes|;
            var loop := LoopCode(hasCond, hasStep, t, u, b);
            && (hasCond ==>
                  && CodeAt(p, ip, t.bytes + JumpAhead(OP_JUMP_IF_FALSE, exitJump))
                  && CodeAt(p, ip + |t.bytes| + 3, [OP_POP]) && CodeAt(p, ip + |t.bytes| + 3 + exitJump, [OP_POP]))
            && CodeAt(p, ip + testLen, rounds.bytes)
            && |loop.bytes| == testLen + |rounds.bytes| + (if hasCond then 1 else 0)
            && loop.consts == rounds.consts
            && (loop.ok ==> rounds.ok && (hasCond ==> t.ok && Fits16(exitJump)))
  {
    hide CodeAt, JumpAhead, RoundsCode;
    if hasCond {
      var rounds := RoundsCode(hasStep, u, b, |t.bytes| + 4);
      var rest := [OP_POP] + rounds.bytes;
      JumpLength(OP_JUMP_IF_FALSE, |rest|);
      CodeSplit3(p, ip, t.bytes + JumpOver(OP_JUMP_IF_FALSE, rest), rest, [OP_POP]);
      CodeSplit(p, ip + |t.bytes| + 3, [OP_POP], rounds.bytes);
    }
  }

  /** The condition of a `for` loop, absent or not: on to the next part, or out. */
  lemma CondRuns(p: Program, cond: OptExpr, exitJump: nat, scope: Scope, k: seq<Const>, ip: nat, st: Store, out: seq<Value>)
    returns (n: nat)
    requires Aligned(scope, st.locals)
    requires var c := OptExprCode(cond, scope, k);
             cond.SomeExpr? ==>
               && c.ok && c.consts <= p.consts && Fits16(exitJump) && CodeAt(p, ip, c.bytes + JumpAhead(OP_JUMP_IF_FALSE, exitJump))
               && CodeAt(p, ip + |c.bytes| + 3, [OP_POP]) && CodeAt(p, ip + |c.bytes| + 3 + exitJump, [OP_POP])
    ensures var r := if cond.NoExpr? then Ok(Bool(true), st) else Eval(cond.e, st);
            var next := if cond.NoExpr? then ip else ip + |OptExprCode(cond, scope, k).bytes| + 4;
            && (r.Ok? ==> Aligned(scope, r.store.locals))
            && Run(p, At(ip, st, out), n) ==
                 if r.Failure? then Failed(out) else At(next + (if Falsey(r.value) then exitJump else 0), r.store, out)
  {
    hide Run, CodeAt, Values, ExprCode, Eval, JumpAhead;
    match cond
    case NoExpr =>
      n := 0;
      RunNone(p, At(ip, st, out));
    case SomeExpr(e) =>
      n := BranchRuns(p, e, exitJump, scope, k, ip, st, out);
  }

  /** The step of a `for` loop and the jump back to its condition. */
  lemma StepRuns(p: Program, e: Expr, distance: nat, scope: Scope, k: seq<Const>, ip: nat, st: Store, out: seq<Value>)
    returns (n: nat)
    requires Aligned(scope, st.locals) && Fits16(distance)
    requires var c := ExprCode(e, scope, k);
             && c.ok && c.consts <= p.consts && CodeAt(p, ip, c.bytes + [OP_POP])
             && distance <= ip + |c.bytes| + 4 && CodeAt(p, ip + |c.bytes| + 1, JumpAhead(OP_LOOP, distance))
    ensures var r := Eval(e, st);
            && (r.Ok? ==> Aligned(scope, r.store.locals))
            && Run(p, At(ip, st, out), n) ==
                 if r.Failure? then Failed(out) else At(ip + |ExprCode(e, scope, k).bytes| + 4 - distance, r.store, out)
  {
    hide Run, CodeAt, Values, ExprCode, Eval, JumpAhead;
    var c := ExprCode(e, scope, k);
    CodeSplit(p, ip, c.bytes, [OP_POP]);
    n := ExprAt(p, e, scope, k, ip, st, out);
    var r := Eval(e, st);
    if r.Ok? {
      var ip1 := ip + |c.bytes|;
      PopAt(p, ip1, r.store, out, r.value);
      Chain(p, At(ip, st, out), n, Push(At(ip1, r.store, out), r.value), 1, At(ip1 + 1, r.store, out));
      JumpRuns(p, At(ip1 + 1, r.store, out), OP_LOOP, distance);
      Chain(p, At(ip, st, out), n + 1, At(ip1 + 1, r.store, out), 1, Run(p, At(ip1 + 1, r.store, out), 1));
      n := n + 2;
    }
  }

  lemma RoundsOk(hasStep: bool, u: Code, b: Code, testLen: nat)
    requires RoundsCode(hasStep, u, b, testLen).ok
    ensures u.ok && b.ok && RoundsCode(hasStep, u, b, testLen).consts == b.consts
    ensures hasStep ==> Fits16(|u.bytes| + 4) && Fits16(testLen + |u.bytes| + 7)
    ensures Fits16((if hasStep then |u.bytes| + 4 else testLen) + |b.bytes| + 3)
  {
    hide JumpAhead;
    JumpLength(OP_LOOP, testLen + |u.bytes| + 7);
  }

  lemma LoopRuns(p: Program, cond: OptExpr, step: OptExpr, body: Stmt, depth: nat, scope: Scope, k: seq<Const>,
                 ip: nat, st: Store, out: seq<Value>, fuel: nat)
    returns (n: nat)
    requires Aligned(scope, st.locals)
    requires var c := ForLoop(cond, step, body, depth, scope, k);
             c.ok && c.consts <= p.consts && CodeAt(p, ip, c.bytes)
    ensures Lands(p, At(ip, st, out), n, ip + |ForLoop(cond, step, body, depth, scope, k).bytes|, scope,
                  Loop(cond, step, body, depth, st, out, fuel), fuel)
    decreases fuel, body, 3
  {
    hide Run, CodeAt, Values, ExprCode, Eval, JumpAhead, StmtCode, Exec, LoopCode, RoundsCode, Loop, Round;
    LoopByRounds(cond, step, body, depth, st, out, fuel);
    var t := OptExprCode(cond, scope, k);
    var u := OptExprCode(step, scope, t.consts);
    var b := StmtCode(body, depth, scope, u.consts);
    var m := At(ip, st, out);
    var testLen := if cond.SomeExpr? then |t.bytes| + 4 else 0;
    var stepAt := ip + testLen;
    var rounds := RoundsCode(step.SomeExpr?, u, b, testLen);
    LoopLayout(p, cond.SomeExpr?, step.SomeExpr?, t, u, b, ip);
    RoundsLayout(p, step.SomeExpr?, u, b, testLen, stepAt);
    RoundsOk(step.SomeExpr?, u, b, testLen);
    n := CondRuns(p, cond, if cond.SomeExpr? then 1 + |rounds.bytes| else 0, scope, k, ip, st, out);
    var r := if cond.NoExpr? then Ok(Bool(true), st) else Eval(cond.e, st);
    if r.Ok? && !Falsey(r.value) {
      var n1 := BodyRuns(p, step, body, depth, scope, t.consts, ip, stepAt, r.store, out, fuel);
      var round := Round(step, body, depth, r.store, out, fuel);
      ChainLands(p, m, n, At(stepAt, r.store, out), n1, ip, scope, round, fuel, fuel);
      n := n + n1;
      if round.Normal? && fuel > 0 {
        var n2 := LoopRuns(p, cond, step, body, depth, scope, k, ip, round.store, round.out, fuel - 1);
        ChainLands(p, m, n, At(ip, round.store, round.out), n2, ip + |ForLoop(cond, step, body, depth, scope, k).bytes|, scope,
                   Loop(cond, step, body, depth, round.store, round.out, fuel - 1), fuel - 1, fuel);
        n := n + n2;
      }
    }
  }

  /** The body of a `for` loop and its step. */
  function Round(step: OptExpr, body: Stmt, depth: nat, st: Store, out: seq<Value>, fuel: nat): Outcome {
    var e := Exec(body, depth, st, out, fuel);
    if !e.Normal? then e
    else
      var i := EvalOpt(step, e.store);
      if i.Failure? then Error(e.out) else Normal(i.store, e.out)
  }

  lemma LoopByRounds(cond: OptExpr, step: OptExpr, body: Stmt, depth: nat, st: Store, out: seq<Value>, fuel: nat)
    ensures var r := if cond.NoExpr? then Ok(Bool(true), st) else Eval(cond.e, st);
            var round := if r.Ok? then Round(step, body, depth, r.store, out, fuel) else Error(out);
            Loop(cond, step, body, depth, st, out, fuel)
            == if r.Failure? then Error(out)
               else if Falsey(r.value) then Normal(r.store, out)
               else if !round.Normal? then round
               else if fuel == 0 then Timeout
               else Loop(cond, step, body, depth, round.store, round.out, fuel - 1)
  {
    hide Eval, EvalOpt, Exec;
  }

  /** One round of a `for` loop after its condition: over the step, the body, and back by the step. */
  lemma BodyRuns(p: Program, step: OptExpr, body: Stmt, depth: nat, scope: Scope, k: seq<Const>,
                 ip: nat, stepAt: nat, st: Store, out: seq<Value>, fuel: nat)
    returns (n: nat)
    requires Aligned(scope, st.locals) && ip <= stepAt
    requires var u := OptExprCode(step, scope, k);
             var b := StmtCode(body, depth, scope, u.consts);
             var bodyAt := stepAt + if step.SomeExpr? then |u.bytes| + 7 else 0;
             var end := bodyAt + |b.bytes| + 3;
             && u.ok && b.ok && b.consts <= p.consts
             && (step.SomeExpr? ==>
                   && Fits16(|u.bytes| + 4) && Fits16(bodyAt - ip)
                   && CodeAt(p, stepAt, JumpAhead(OP_JUMP, |u.bytes| + 4)) && CodeAt(p, stepAt + 3, u.bytes + [OP_POP])
                   && CodeAt(p, stepAt + |u.bytes| + 4, JumpAhead(OP_LOOP, bodyAt - ip)))
             && CodeAt(p, bodyAt, b.bytes) && Fits16(end - if step.SomeExpr? then stepAt + 3 else ip)
             && CodeAt(p, bodyAt + |b.bytes|, JumpAhead(OP_LOOP, end - if step.SomeExpr? then stepAt + 3 else ip))
    ensures var r := Round(step, body, depth, st, out, fuel);
            Lands(p, At(stepAt, st, out), n, ip, scope, r, fuel) && (r.Normal? ==> 1 <= n)
    decreases fuel, body, 2
  {
    hide Run, CodeAt, Values, ExprCode, Eval, JumpAhead, StmtCode, Exec;
    var u := OptExprCode(step, scope, k);
    var b := StmtCode(body, depth, scope, u.consts);
    var bodyAt := stepAt + if step.SomeExpr? then |u.bytes| + 7 else 0;
    var end := bodyAt + |b.bytes| + 3;
    var m := At(stepAt, st, out);
    if step.SomeExpr? {
      JumpRuns(p, m, OP_JUMP, |u.bytes| + 4);
      n := 1;
    } else {
      RunNone(p, m);
      n := 0;
    }
    var m1 := At(bodyAt, st, out);
    var n1 := StmtRuns(p, body, depth, scope, u.consts, bodyAt, st, out, fuel);
    var e := Exec(body, depth, st, out, fuel);
    var back := end - if step.SomeExpr? then stepAt + 3 else ip;
    n1 := ThenLoop(p, m1, n1, bodyAt + |b.bytes|, back, scope, e, fuel);
    ChainLands(p, m, n, m1, n1, end - back, scope, e, fuel, fuel);
    n := n + n1;
    if step.SomeExpr? && e.Normal? {
      var m2 := At(stepAt + 3, e.store, e.out);
      var n2 := StepRuns(p, step.e, bodyAt - ip, scope, k, stepAt + 3, e.store, e.out);
      Chain(p, m, n, m2, n2, Run(p, m2, n2));
      n := n + n2;
    }
  }

  // ---- scripts ----

  function Start(): Machine {
    Running(0, [Script], map[], [])
  }

  /** Where a script that has come to an end leaves the machine. */
  function Final(r: Outcome): Machine
    requires !r.Timeout?
  {
    match r
    case Normal(st, out) => Done(st.globals, out)
    case Error(out) => Failed(out)
  }

  lemma WholeCode(p: Program)
    ensures CodeAt(p, 0, p.code)
  {
  }

  lemma StartAt(st: Store)
    requires st == Store([Binding("this", Script)], map[])
    ensures Start() == At(0, st, [])
  {
    assert Values(st.locals) == [Script];
  }

  /** Whatever a script does within `fuel` rounds of its loops, its code does. */
  lemma ScriptRuns(script: Decls, fuel: nat) returns (n: nat)
    requires ScriptCode(script).ok
    ensures var r := Meaning(script, fuel);
            var m := Run(Compiled(script), Start(), n);
            if r.Timeout? then fuel <= n && m.Running? else m == Final(r)
  {
    hide Run, CodeAt, Values, DeclsCode, ExecDecls;
    var p := Compiled(script);
    var scope := [Local("this", 0)];
    var st := Store([Binding("this", Script)], map[]);
    var c := DeclsCode(script, 0, scope, []);
    WholeCode(p);
    StartAt(st);
    CodeSplit(p, 0, c.bytes, [OP_NIL, OP_RETURN]);
    assert [OP_NIL, OP_RETURN] == [OP_NIL] + [OP_RETURN];
    CodeSplit(p, |c.bytes|, [OP_NIL], [OP_RETURN]);
    n := DeclsRun(p, script, 0, scope, [], 0, st, [], fuel);
    var r := Meaning(script, fuel);
    if r.Normal? {
      var m1 := At(|c.bytes|, r.store, r.out);
      Step0(p, m1, OP_NIL);
      var m2 := Push(m1.(ip := m1.ip + 1), NilVal);
      Step0(p, m2, OP_RETURN);
      Chain(p, Start(), n, m1, 1, m2);
      Chain(p, Start(), n + 1, m2, 1, Run(p, m2, 1));
      n := n + 2;
    }
  }

  /** Conversely, once the machine has stopped the script has ended, and in the same way: the code
      never reaches a state from which the interpreter cannot go on. */
  lemma StopsWithTheScript(script: Decls, n: nat)
    requires ScriptCode(script).ok
    ensures var m := Run(Compiled(script), Start(), n);
            var r := Meaning(script, n + 1);
            !m.Running? ==> !r.Timeout? && m == Final(r)
  {
    hide Run, Meaning, Compiled;
    var p := Compiled(script);
    var m := Run(p, Start(), n);
    if !m.Running? {
      var k := ScriptRuns(script, n + 1);
      var later := if k <= n then n - k else k - n;
      if k <= n {
        RunAdd(p, Start(), k, later);
        if !Run(p, Start(), k).Running? {
          StoppedStays(p, Run(p, Start(), k), later);
        }
      } else {
        RunAdd(p, Start(), n, later);
        StoppedStays(p, m, later);
      }
    }
  }

  /** The script runs forever exactly when its code does. */
  lemma DivergesTogether(script: Decls)
    requires ScriptCode(script).ok
    ensures (forall n: nat :: Run(Compiled(script), Start(), n).Running?) <==>
            (forall fuel: nat :: Meaning(script, fuel).Timeout?)
  {
    hide Run, Meaning, Compiled;
    var p := Compiled(script);
    if fuel: nat :| !Meaning(script, fuel).Timeout? {
      var n := ScriptRuns(script, fuel);
      assert !Run(p, Start(), n).Running?;
    } else {
      forall n: nat ensures Run(p, Start(), n).Running? {
        StopsWithTheScript(script, n);
      }
    }
  }
}
