/** The code of each construct as one expression of its parts: what the compiler's emitting and
    back-patching must come to. */
module Codegen {
  import opened Language
  import opened Bytecode

  const UINT8_MAX := 255
  const UINT16_MAX := 65535
  const UINT24_MAX := 16777215

  /** A local variable of the function being compiled; depth -1 until its initialiser is done. */
  datatype Local = Local(name: string, depth: int)

  type Scope = seq<Local>

  /** Bytes, the constant table after them, and whether no error was reported. */
  datatype Code = Code(bytes: seq<Byte>, consts: seq<Const>, ok: bool)

  function Then(a: Code, b: Code): Code {
    Code(a.bytes + b.bytes, b.consts, a.ok && b.ok)
  }

  // ---- constants ----

  /** `addConstant`: an equal constant is reused. */
  function ConstIndex(k: seq<Const>, c: Const): (i: nat)
    ensures i <= |k|
    ensures i < |k| ==> k[i] == c
    ensures forall j :: 0 <= j < i ==> k[j] != c
  {
    if |k| == 0 || k[0] == c then 0 else 1 + ConstIndex(k[1..], c)
  }

  function AddConst(k: seq<Const>, c: Const): (k': seq<Const>)
    ensures k <= k' && ConstIndex(k, c) < |k'| && k'[ConstIndex(k, c)] == c
  {
    if ConstIndex(k, c) < |k| then k else k + [c]
  }

  /** An opcode with a constant as its operand. */
  function ConstCode(op: Byte, k: seq<Const>, c: Const): (code: Code)
    ensures k <= code.consts
  {
    var i := ConstIndex(k, c);
    Code([op, if i <= UINT8_MAX then i else 0], AddConst(k, c), i <= UINT8_MAX)
  }

  function Op(op: Byte, k: seq<Const>): Code {
    Code([op], k, true)
  }

  function Low(n: nat): Byte {
    n % 256
  }

  /** `emitImmediateConstant` and `emitConstant` for an integer. */
  function NumberCode(n: int, k: seq<Const>): (code: Code)
    ensures k <= code.consts
  {
    var v: nat := if n < 0 then -n else n;
    if v <= UINT8_MAX then
      Code([if n < 0 then OP_IMMEDIATE_N8 else OP_IMMEDIATE_P8, v], k, true)
    else if v <= UINT16_MAX then
      Code([if n < 0 then OP_IMMEDIATE_N16 else OP_IMMEDIATE_P16, Low(v), Low(v / 256)], k, true)
    else if v <= UINT24_MAX then
      Code([if n < 0 then OP_IMMEDIATE_N24 else OP_IMMEDIATE_P24, Low(v), Low(v / 256), Low(v / 65536)], k, true)
    else ConstCode(OP_CONSTANT, k, IntConst(n))
  }

  // ---- names ----

  /** `resolveLocal`: the innermost local with this name, or -1. */
  function Resolve(scope: Scope, name: string): (i: int)
    ensures -1 <= i < |scope|
    ensures i >= 0 ==> scope[i].name == name
    ensures forall j :: i < j < |scope| ==> scope[j].name != name
  {
    Innermost(scope, (l: Local) => l.name, name)
  }

  /** Reading or writing a variable. */
  function VariableCode(localOp: Byte, globalOp: Byte, scope: Scope, name: string, k: seq<Const>): (code: Code)
    ensures k <= code.consts
  {
    var i := Resolve(scope, name);
    if i >= 0 then Code([localOp, if i <= UINT8_MAX then i else 0], k, scope[i].depth != -1 && i <= UINT8_MAX)
    else ConstCode(globalOp, k, NameConst(name))
  }

  /** The constant table after a variable has been resolved, before anything it is assigned. */
  function VariableConsts(scope: Scope, name: string, k: seq<Const>): seq<Const> {
    if Resolve(scope, name) >= 0 then k else AddConst(k, NameConst(name))
  }

  /** `declareVariable` finds the name already in the current scope. */
  function Redeclared(scope: Scope, name: string, depth: int): bool {
    if |scope| == 0 then false
    else
      var l := scope[|scope| - 1];
      if l.depth != -1 && l.depth < depth then false
      else l.name == name || Redeclared(scope[..|scope| - 1], name, depth)
  }

  // ---- expressions ----

  /** A jump of a known distance, high byte first. */
  function JumpAhead(op: Byte, distance: nat): seq<Byte> {
    [op, Low(distance / 256), Low(distance)]
  }

  lemma JumpLength(op: Byte, distance: nat)
    ensures |JumpAhead(op, distance)| == 3
  {
  }

  /** A jump over `body`. */
  function JumpOver(op: Byte, body: seq<Byte>): seq<Byte> {
    JumpAhead(op, |body|)
  }

  function Fits16(n: nat): bool {
    n <= UINT16_MAX
  }

  function OperatorCode(op: BinaryOp): seq<Byte> {
    match op
    case Equal => [OP_EQUAL]
    case NotEqual => [OP_EQUAL, OP_NOT]
    case Greater => [OP_GREATER]
    case LessEqual => [OP_GREATER, OP_NOT]
    case Less => [OP_LESS]
    case GreaterEqual => [OP_LESS, OP_NOT]
    case Add => [OP_ADD]
    case Subtract => [OP_SUBTRACT]
    case Multiply => [OP_MULTIPLY]
    case Divide => [OP_DIVIDE]
    case Modulo => [OP_MODULO]
  }

  function ExprCode(e: Expr, scope: Scope, k: seq<Const>): (code: Code)
    ensures k <= code.consts
  {
    var first := OperandCode(e.first, scope, k);
    Then(first, RestCode(e.rest, scope, first.consts))
  }

  function OperandCode(o: Operand, scope: Scope, k: seq<Const>): (code: Code)
    ensures k <= code.consts
  {
    match o
    case Number(n) => NumberCode(n, k)
    case True => Op(OP_TRUE, k)
    case False => Op(OP_FALSE, k)
    case NilLiteral => Op(OP_NIL, k)
    case Grouping(e) => ExprCode(e, scope, k)
    case Variable(name) =>
      var c := VariableCode(OP_GET_LOCAL, OP_GET_GLOBAL, scope, name, k);
      c.(ok := c.ok && name != "this")
    case Assign(name, value) =>
      var v := ExprCode(value, scope, VariableConsts(scope, name, k));
      var assign := VariableCode(OP_SET_LOCAL, OP_SET_GLOBAL, scope, name, k);
      Code(v.bytes + [OP_DUPLICATE] + assign.bytes, v.consts, v.ok && assign.ok && name != "this")
    case Unary(op, rhs) =>
      var r := ExprCode(rhs, scope, k);
      Then(r, Op(if op == Not then OP_NOT else OP_NEGATE, r.consts))
  }

  function RestCode(ops: Operations, scope: Scope, k: seq<Const>): (code: Code)
    ensures k <= code.consts
    decreases ops, 1
  {
    if ops.End? then Code([], k, true)
    else
      var c := OperationCode(ops, scope, k);
      Then(c, RestCode(ops.rest, scope, c.consts))
  }

  /** One link of the chain. */
  function OperationCode(ops: Operations, scope: Scope, k: seq<Const>): (code: Code)
    requires !ops.End?
    ensures k <= code.consts
    decreases ops, 0
  {
    match ops
    case Binary(op, rhs, _) =>
      var r := ExprCode(rhs, scope, k);
      r.(bytes := r.bytes + OperatorCode(op))
    case And(rhs, _) => AndCode(ExprCode(rhs, scope, k))
    case Or(rhs, _) => OrCode(ExprCode(rhs, scope, k))
  }

  /** Skip the right operand when the left one is false, otherwise replace it. */
  function AndCode(r: Code): Code {
    var body := [OP_POP] + r.bytes;
    Code(JumpOver(OP_JUMP_IF_FALSE, body) + body, r.consts, r.ok && Fits16(|body|))
  }

  /** The same with the test the other way round, by jumping over a jump. */
  function OrCode(r: Code): Code {
    var body := [OP_POP] + r.bytes;
    var jump := JumpOver(OP_JUMP, body);
    Code(JumpOver(OP_JUMP_IF_FALSE, jump) + jump + body, r.consts, r.ok && Fits16(|body|))
  }

  // ---- statements ----

  function OptExprCode(e: OptExpr, scope: Scope, k: seq<Const>): (code: Code)
    ensures k <= code.consts
  {
    match e
    case NoExpr => Code([], k, true)
    case SomeExpr(x) => ExprCode(x, scope, k)
  }

  /** The scope after a declaration at this depth. */
  function DeclScope(d: Decl, depth: nat, scope: Scope): Scope {
    if d.Var? && depth > 0 then scope + [Local(d.name, depth)] else scope
  }

  function DeclsScope(ds: Decls, depth: nat, scope: Scope): (r: Scope)
    ensures scope <= r
  {
    match ds
    case Nil => scope
    case Cons(d, rest) => DeclsScope(rest, depth, DeclScope(d, depth, scope))
  }

  /** The cell, and the initialiser stored into it. */
  function InitCode(init: OptExpr, scope: Scope, k: seq<Const>): (code: Code)
    ensures k <= code.consts
  {
    match init
    case NoExpr => Code([OP_NIL, OP_SET_CELL_TYPE], k, true)
    case SomeExpr(e) =>
      var c := ExprCode(e, scope, k);
      c.(bytes := [OP_NIL, OP_SET_CELL_TYPE] + c.bytes + [OP_DUPLICATE, OP_INITIALISE])
  }

  function DeclCode(d: Decl, depth: nat, scope: Scope, k: seq<Const>): (code: Code)
    ensures k <= code.consts
  {
    match d
    case Statement(s) => StmtCode(s, depth, scope, k)
    case Var(name, init) =>
      if depth == 0 then
        var g := ConstCode(OP_DEFINE_GLOBAL, k, NameConst(name));
        var c := InitCode(init, scope, g.consts);
        Code(c.bytes + g.bytes, c.consts, c.ok && g.ok)
      else
        var c := InitCode(init, scope + [Local(name, -1)], k);
        c.(ok := c.ok && !Redeclared(scope, name, depth) && |scope| <= UINT8_MAX)
  }

  function DeclsCode(ds: Decls, depth: nat, scope: Scope, k: seq<Const>): (code: Code)
    ensures k <= code.consts
  {
    match ds
    case Nil => Code([], k, true)
    case Cons(d, rest) =>
      var c := DeclCode(d, depth, scope, k);
      Then(c, DeclsCode(rest, depth, DeclScope(d, depth, scope), c.consts))
  }

  /** `endScope`: one pop for each local of the scope. */
  function PopCode(n: nat): (s: seq<Byte>) {
    seq(n, _ => OP_POP)
  }

  function StmtCode(s: Stmt, depth: nat, scope: Scope, k: seq<Const>): (code: Code)
    ensures k <= code.consts
    decreases s, 0
  {
    match s
    case Expression(e) =>
      var c := ExprCode(e, scope, k);
      c.(bytes := c.bytes + [OP_POP])
    case Print(e) =>
      var c := ExprCode(e, scope, k);
      c.(bytes := c.bytes + [OP_PRINT])
    case Block(decls) =>
      var c := DeclsCode(decls, depth + 1, scope, k);
      c.(bytes := c.bytes + PopCode(|DeclsScope(decls, depth + 1, scope)| - |scope|))
    case If(test, thn, els) =>
      var t := ExprCode(test, scope, k);
      var a := StmtCode(thn, depth, scope, t.consts);
      var b := OptStmtCode(els, depth, scope, a.consts);
      IfCode(t, a, b)
    case While(test, body) =>
      var t := ExprCode(test, scope, k);
      WhileCode(t, StmtCode(body, depth, scope, t.consts))
    case For(init, cond, step, body) =>
      var i := DeclsCode(init, depth + 1, scope, k);
      var inner := DeclsScope(init, depth + 1, scope);
      var loop := ForLoop(cond, step, body, depth + 1, inner, i.consts);
      Code(i.bytes + loop.bytes + PopCode(|inner| - |scope|), loop.consts, i.ok && loop.ok)
  }

  function OptStmtCode(s: OptStmt, depth: nat, scope: Scope, k: seq<Const>): (code: Code)
    ensures k <= code.consts
  {
    match s
    case NoStmt => Code([], k, true)
    case SomeStmt(x) => StmtCode(x, depth, scope, k)
  }

  function IfCode(t: Code, a: Code, b: Code): Code {
    var elseBranch := [OP_POP] + b.bytes;
    var thenBranch := [OP_POP] + a.bytes + JumpOver(OP_JUMP, elseBranch);
    Code(t.bytes + JumpOver(OP_JUMP_IF_FALSE, thenBranch) + thenBranch + elseBranch, b.consts,
         t.ok && a.ok && b.ok && Fits16(|thenBranch|) && Fits16(|elseBranch|))
  }

  function WhileCode(t: Code, b: Code): Code {
    var back := |t.bytes| + |b.bytes| + 7;
    var rest := [OP_POP] + b.bytes + JumpAhead(OP_LOOP, back);
    Code(t.bytes + JumpOver(OP_JUMP_IF_FALSE, rest) + rest + [OP_POP], b.consts,
         t.ok && b.ok && Fits16(|rest|) && Fits16(back))
  }

  /** The step of a `for` loop, which the first round jumps over, and the jump back to a condition
      that is `testLen` bytes long, its jump included. */
  function StepCode(hasStep: bool, u: Code, testLen: nat): Code {
    if !hasStep then Code([], u.consts, u.ok)
    else
      var back := testLen + |u.bytes| + 7;
      var step := u.bytes + [OP_POP] + JumpAhead(OP_LOOP, back);
      Code(JumpOver(OP_JUMP, step) + step, u.consts, u.ok && Fits16(|step|) && Fits16(back))
  }

  lemma StepLength(hasStep: bool, u: Code, testLen: nat)
    ensures |StepCode(hasStep, u, testLen).bytes| == if hasStep then |u.bytes| + 7 else 0
    ensures StepCode(hasStep, u, testLen).consts == u.consts
  {
  }

  /** What follows the condition in each round: the step, the body, and the jump back to the step
      or, without one, to the condition. */
  function RoundsCode(hasStep: bool, u: Code, b: Code, testLen: nat): Code {
    var s := StepCode(hasStep, u, testLen);
    var back := (if hasStep then |u.bytes| + 4 else testLen) + |b.bytes| + 3;
    Code(s.bytes + b.bytes + JumpAhead(OP_LOOP, back), b.consts, s.ok && b.ok && Fits16(back))
  }

  function LoopCode(hasCond: bool, hasStep: bool, t: Code, u: Code, b: Code): Code {
    if !hasCond then RoundsCode(hasStep, u, b, 0)
    else
      var rounds := RoundsCode(hasStep, u, b, |t.bytes| + 4);
      var rest := [OP_POP] + rounds.bytes;
      Code(t.bytes + JumpOver(OP_JUMP_IF_FALSE, rest) + rest + [OP_POP], rounds.consts,
           t.ok && rounds.ok && Fits16(|rest|))
  }

  /** The loop part of the code of a `for` statement. */
  function ForLoop(cond: OptExpr, step: OptExpr, body: Stmt, depth: nat, scope: Scope, k: seq<Const>): (code: Code)
    ensures k <= code.consts
    decreases body, 1
  {
    var t := OptExprCode(cond, scope, k);
    var u := OptExprCode(step, scope, t.consts);
    LoopCode(cond.SomeExpr?, step.SomeExpr?, t, u, StmtCode(body, depth, scope, u.consts))
  }

  /** A script: its declarations and the closing return. */
  function ScriptCode(script: Decls): Code {
    var c := DeclsCode(script, 0, [Local("this", 0)], []);
    c.(bytes := c.bytes + [OP_NIL, OP_RETURN])
  }

  function Compiled(script: Decls): Program {
    Program(ScriptCode(script).bytes, ScriptCode(script).consts)
  }
}
