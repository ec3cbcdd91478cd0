/** Which scripts compile: the rules about names, stated without slots and depths, and the limits of the
    byte code. */
module Acceptance {
  import opened Language
  import opened Bytecode
  import opened Codegen

  // ---- the rules about names ----

  /** No use of `this`, nor of the local that is being initialised. */
  predicate MayName(name: string, pending: Option<string>) {
    name != "this" && pending != Some(name)
  }

  predicate ExprScoped(e: Expr, pending: Option<string>) {
    OperandScoped(e.first, pending) && RestScoped(e.rest, pending)
  }

  predicate OperandScoped(o: Operand, pending: Option<string>) {
    match o
    case Grouping(e) => ExprScoped(e, pending)
    case Variable(name) => MayName(name, pending)
    case Assign(name, value) => MayName(name, pending) && ExprScoped(value, pending)
    case Unary(_, rhs) => ExprScoped(rhs, pending)
    case _ => true
  }

  predicate RestScoped(ops: Operations, pending: Option<string>) {
    ops.End? || (ExprScoped(ops.rhs, pending) && RestScoped(ops.rest, pending))
  }

  predicate OptScoped(e: OptExpr, pending: Option<string>) {
    e.SomeExpr? ==> ExprScoped(e.e, pending)
  }

  /** In a block, whose variables so far are `here`, no name is declared twice; globals may be. */
  predicate DeclScoped(d: Decl, local: bool, here: set<string>) {
    match d
    case Statement(s) => StmtScoped(s)
    case Var(name, init) => OptScoped(init, if local then Some(name) else None) && (local ==> name !in here)
  }

  /** The names of the block once this is declared. */
  function HereAfter(d: Decl, local: bool, here: set<string>): set<string> {
    if d.Var? && local then here + {d.name} else here
  }

  predicate DeclsScoped(ds: Decls, local: bool, here: set<string>) {
    match ds
    case Nil => true
    case Cons(d, rest) => DeclScoped(d, local, here) && DeclsScoped(rest, local, HereAfter(d, local, here))
  }

  predicate StmtScoped(s: Stmt) {
    match s
    case Expression(e) => ExprScoped(e, None)
    case Print(e) => ExprScoped(e, None)
    case Block(decls) => DeclsScoped(decls, true, {})
    case If(test, thn, els) => ExprScoped(test, None) && StmtScoped(thn) && (els.SomeStmt? ==> StmtScoped(els.s))
    case While(test, body) => ExprScoped(test, None) && StmtScoped(body)
    case For(init, cond, step, body) =>
      DeclsScoped(init, true, {}) && OptScoped(cond, None) && OptScoped(step, None) && StmtScoped(body)
  }

  // ---- sizes ----

  /** How many names, literals, operators and statements there are. */
  function ExprSize(e: Expr): nat {
    OperandSize(e.first) + RestSize(e.rest)
  }

  function OperandSize(o: Operand): (n: nat)
    ensures n > 0
  {
    match o
    case Grouping(e) => 1 + ExprSize(e)
    case Assign(_, value) => 1 + ExprSize(value)
    case Unary(_, rhs) => 1 + ExprSize(rhs)
    case _ => 1
  }

  function RestSize(ops: Operations): nat {
    if ops.End? then 0 else 1 + ExprSize(ops.rhs) + RestSize(ops.rest)
  }

  function OptSize(e: OptExpr): nat {
    if e.SomeExpr? then ExprSize(e.e) else 0
  }

  function DeclSize(d: Decl): nat {
    match d
    case Statement(s) => StmtSize(s)
    case Var(_, init) => 1 + OptSize(init)
  }

  function DeclsSize(ds: Decls): nat {
    match ds
    case Nil => 0
    case Cons(d, rest) => DeclSize(d) + DeclsSize(rest)
  }

  function StmtSize(s: Stmt): (n: nat)
    ensures n > 0
  {
    match s
    case Expression(e) => 1 + ExprSize(e)
    case Print(e) => 1 + ExprSize(e)
    case Block(decls) => 1 + DeclsSize(decls)
    case If(test, thn, els) => 1 + ExprSize(test) + StmtSize(thn) + (if els.SomeStmt? then StmtSize(els.s) else 0)
    case While(test, body) => 1 + ExprSize(test) + StmtSize(body)
    case For(init, cond, step, body) => 1 + DeclsSize(init) + OptSize(cond) + OptSize(step) + StmtSize(body)
  }

  /** Code and constants are in proportion. */
  ghost predicate InProportion(c: Code, k: seq<Const>, size: nat) {
    |c.bytes| <= 32 * size && |c.consts| <= |k| + size
  }

  lemma ConstProportion(op: Byte, k: seq<Const>, c: Const)
    ensures InProportion(ConstCode(op, k, c), k, 1) && |ConstCode(op, k, c).bytes| == 2
    ensures |k| < 256 ==> ConstCode(op, k, c).ok
  {
  }

  lemma {:induction false} ExprProportion(e: Expr, scope: Scope, k: seq<Const>)
    ensures InProportion(ExprCode(e, scope, k), k, ExprSize(e))
  {
    OperandProportion(e.first, scope, k);
    RestProportion(e.rest, scope, OperandCode(e.first, scope, k).consts);
  }

  lemma {:induction false} OperandProportion(o: Operand, scope: Scope, k: seq<Const>)
    ensures InProportion(OperandCode(o, scope, k), k, OperandSize(o))
  {
    hide ConstCode, ExprCode, ExprSize, Resolve;
    match o
    case Number(n) => ConstProportion(OP_CONSTANT, k, IntConst(n));
    case Grouping(e) => ExprProportion(e, scope, k);
    case Variable(name) => VariableProportion(OP_GET_LOCAL, OP_GET_GLOBAL, scope, name, k);
    case Assign(name, value) =>
      VariableProportion(OP_SET_LOCAL, OP_SET_GLOBAL, scope, name, k);
      ExprProportion(value, scope, VariableConsts(scope, name, k));
    case Unary(_, rhs) => ExprProportion(rhs, scope, k);
    case _ =>
  }

  lemma VariableProportion(localOp: Byte, globalOp: Byte, scope: Scope, name: string, k: seq<Const>)
    ensures |VariableCode(localOp, globalOp, scope, name, k).bytes| == 2
    ensures InProportion(VariableCode(localOp, globalOp, scope, name, k), k, 1)
    ensures |VariableConsts(scope, name, k)| <= |k| + 1
  {
  }

  lemma {:induction false} RestProportion(ops: Operations, scope: Scope, k: seq<Const>)
    ensures InProportion(RestCode(ops, scope, k), k, RestSize(ops))
  {
    hide ExprCode, ExprSize;
    if !ops.End? {
      ExprProportion(ops.rhs, scope, k);
      RestProportion(ops.rest, scope, OperationCode(ops, scope, k).consts);
    }
  }

  lemma OptProportion(e: OptExpr, scope: Scope, k: seq<Const>)
    ensures InProportion(OptExprCode(e, scope, k), k, OptSize(e))
  {
    if e.SomeExpr? {
      ExprProportion(e.e, scope, k);
    }
  }

  lemma {:induction false} DeclsProportion(ds: Decls, depth: nat, scope: Scope, k: seq<Const>)
    ensures InProportion(DeclsCode(ds, depth, scope, k), k, DeclsSize(ds))
    ensures var locals := |DeclsScope(ds, depth, scope)| - |scope|;
            locals <= DeclsSize(ds) && |DeclsCode(ds, depth, scope, k).bytes| + locals <= 32 * DeclsSize(ds)
  {
    hide StmtCode, StmtSize, OptExprCode, OptSize, ConstCode;
    match ds
    case Nil =>
    case Cons(d, rest) =>
      DeclProportion(d, depth, scope, k);
      DeclsProportion(rest, depth, DeclScope(d, depth, scope), DeclCode(d, depth, scope, k).consts);
  }

  lemma {:induction false} DeclProportion(d: Decl, depth: nat, scope: Scope, k: seq<Const>)
    ensures InProportion(DeclCode(d, depth, scope, k), k, DeclSize(d))
    ensures d.Var? ==> |DeclCode(d, depth, scope, k).bytes| < 32 * DeclSize(d)
  {
    hide StmtCode, StmtSize, ExprCode, ExprSize, ConstCode, Redeclared;
    match d
    case Statement(s) => StmtProportion(s, depth, scope, k);
    case Var(name, init) =>
      ConstProportion(OP_DEFINE_GLOBAL, k, NameConst(name));
      var inner, consts :=
        if depth == 0 then scope else scope + [Local(name, -1)],
        if depth == 0 then ConstCode(OP_DEFINE_GLOBAL, k, NameConst(name)).consts else k;
      OptProportion(init, inner, consts);
      assert |InitCode(init, inner, consts).bytes| <= |OptExprCode(init, inner, consts).bytes| + 4;
  }

  lemma {:induction false} StmtProportion(s: Stmt, depth: nat, scope: Scope, k: seq<Const>)
    ensures InProportion(StmtCode(s, depth, scope, k), k, StmtSize(s))
  {
    hide LoopCode, ExprCode, ExprSize, DeclsCode, DeclsSize, DeclsScope, OptExprCode, OptSize;
    match s
    case Expression(e) => ExprProportion(e, scope, k);
    case Print(e) => ExprProportion(e, scope, k);
    case Block(decls) => DeclsProportion(decls, depth + 1, scope, k);
    case If(test, thn, els) =>
      ExprProportion(test, scope, k);
      var t := ExprCode(test, scope, k);
      StmtProportion(thn, depth, scope, t.consts);
      if els.SomeStmt? {
        StmtProportion(els.s, depth, scope, StmtCode(thn, depth, scope, t.consts).consts);
      }
    case While(test, body) =>
      ExprProportion(test, scope, k);
      StmtProportion(body, depth, scope, ExprCode(test, scope, k).consts);
    case For(init, cond, step, body) =>
      DeclsProportion(init, depth + 1, scope, k);
      var i, inner := DeclsCode(init, depth + 1, scope, k), DeclsScope(init, depth + 1, scope);
      OptProportion(cond, inner, i.consts);
      var t := OptExprCode(cond, inner, i.consts);
      OptProportion(step, inner, t.consts);
      var u := OptExprCode(step, inner, t.consts);
      StmtProportion(body, depth + 1, inner, u.consts);
      LoopLength(cond.SomeExpr?, step.SomeExpr?, t, u, StmtCode(body, depth + 1, inner, u.consts));
  }

  lemma LoopLength(hasCond: bool, hasStep: bool, t: Code, u: Code, b: Code)
    ensures |LoopCode(hasCond, hasStep, t, u, b).bytes| <= |t.bytes| + |u.bytes| + |b.bytes| + 15
    ensures LoopCode(hasCond, hasStep, t, u, b).consts == b.consts
  {
  }

  // ---- what compiles follows the rules, and what follows them and is small compiles ----

  /** Locals are held block by block, the innermost last. */
  ghost predicate Nested(scope: Scope, depth: nat) {
    && (forall i :: 0 <= i < |scope| ==> 0 <= scope[i].depth <= depth)
    && forall i, j :: 0 <= i < j < |scope| ==> scope[i].depth <= scope[j].depth
  }

  /** The names of the block at this depth. */
  ghost function Here(scope: Scope, depth: nat): set<string> {
    set l | l in scope && l.depth == depth :: l.name
  }

  lemma {:induction false} RedeclaredIff(scope: Scope, depth: nat, name: string)
    requires Nested(scope, depth)
    ensures Redeclared(scope, name, depth) <==> name in Here(scope, depth)
  {
    hide Here;
    NothingHere(scope, depth);
    if |scope| > 0 {
      var l, before := scope[|scope| - 1], scope[..|scope| - 1];
      RedeclaredIff(before, depth, name);
      assert scope == before + [l];
      HereNext(before, l, depth);
    }
  }

  /** Once an outer block is reached, there is nothing more of this one. */
  lemma NothingHere(scope: Scope, depth: nat)
    requires Nested(scope, depth)
    ensures |scope| == 0 || scope[|scope| - 1].depth < depth ==> Here(scope, depth) == {}
  {
  }

  lemma HereNext(scope: Scope, l: Local, depth: nat)
    ensures Here(scope + [l], depth) == Here(scope, depth) + if l.depth == depth then {l.name} else {}
  {
    assert forall x :: x in scope + [l] <==> x in scope || x == l;
  }

  lemma OneMoreHere(scope: Scope, depth: nat, name: string)
    requires Nested(scope, depth)
    ensures Nested(scope + [Local(name, depth)], depth)
    ensures Here(scope + [Local(name, depth)], depth) == Here(scope, depth) + {name}
  {
    hide Here;
    HereNext(scope, Local(name, depth), depth);
  }

  lemma NewBlock(scope: Scope, depth: nat)
    requires Nested(scope, depth)
    ensures Nested(scope, depth + 1) && Here(scope, depth + 1) == {}
  {
  }

  /** No local is being initialised, or the last one. */
  ghost predicate Pending(scope: Scope, pending: Option<string>) {
    match pending
    case None => forall i :: 0 <= i < |scope| ==> scope[i].depth != -1
    case Some(name) => |scope| > 0 && scope[|scope| - 1] == Local(name, -1)
                       && forall i :: 0 <= i < |scope| - 1 ==> scope[i].depth != -1
  }

  lemma VariableAccepted(localOp: Byte, globalOp: Byte, scope: Scope, pending: Option<string>, name: string, k: seq<Const>)
    requires Pending(scope, pending)
    ensures VariableCode(localOp, globalOp, scope, name, k).ok ==> pending != Some(name)
    ensures pending != Some(name) && |scope| <= 256 && |k| < 256 ==> VariableCode(localOp, globalOp, scope, name, k).ok
  {
  }

  lemma {:induction false} ExprAccepted(e: Expr, scope: Scope, pending: Option<string>, k: seq<Const>)
    requires Pending(scope, pending)
    ensures ExprCode(e, scope, k).ok ==> ExprScoped(e, pending)
    ensures ExprScoped(e, pending) && |scope| <= 256 && |k| + ExprSize(e) <= 256 ==> ExprCode(e, scope, k).ok
  {
    OperandAccepted(e.first, scope, pending, k);
    OperandProportion(e.first, scope, k);
    RestAccepted(e.rest, scope, pending, OperandCode(e.first, scope, k).consts);
  }

  lemma {:induction false} OperandAccepted(o: Operand, scope: Scope, pending: Option<string>, k: seq<Const>)
    requires Pending(scope, pending)
    ensures OperandCode(o, scope, k).ok ==> OperandScoped(o, pending)
    ensures OperandScoped(o, pending) && |scope| <= 256 && |k| + OperandSize(o) <= 256 ==> OperandCode(o, scope, k).ok
  {
    hide ConstCode, ExprCode, ExprSize, ExprScoped, VariableCode, VariableConsts, Pending;
    match o
    case Number(n) => ConstProportion(OP_CONSTANT, k, IntConst(n));
    case Grouping(e) => ExprAccepted(e, scope, pending, k);
    case Variable(name) => VariableAccepted(OP_GET_LOCAL, OP_GET_GLOBAL, scope, pending, name, k);
    case Assign(name, value) =>
      VariableAccepted(OP_SET_LOCAL, OP_SET_GLOBAL, scope, pending, name, k);
      VariableProportion(OP_SET_LOCAL, OP_SET_GLOBAL, scope, name, k);
      ExprAccepted(value, scope, pending, VariableConsts(scope, name, k));
    case Unary(_, rhs) => ExprAccepted(rhs, scope, pending, k);
    case _ =>
  }

  lemma {:induction false} RestAccepted(ops: Operations, scope: Scope, pending: Option<string>, k: seq<Const>)
    requires Pending(scope, pending)
    ensures RestCode(ops, scope, k).ok ==> RestScoped(ops, pending)
    ensures RestScoped(ops, pending) && |scope| <= 256 && |k| + RestSize(ops) <= 256 ==> RestCode(ops, scope, k).ok
  {
    hide ExprCode, ExprSize, ExprScoped, Pending;
    if !ops.End? {
      ExprAccepted(ops.rhs, scope, pending, k);
      ExprProportion(ops.rhs, scope, k);
      RestAccepted(ops.rest, scope, pending, OperationCode(ops, scope, k).consts);
    }
  }

  lemma OptAccepted(e: OptExpr, scope: Scope, pending: Option<string>, k: seq<Const>)
    requires Pending(scope, pending)
    ensures OptExprCode(e, scope, k).ok ==> OptScoped(e, pending)
    ensures OptScoped(e, pending) && |scope| <= 256 && |k| + OptSize(e) <= 256 ==> OptExprCode(e, scope, k).ok
    ensures e.NoExpr? ==> OptExprCode(e, scope, k).ok
  {
    if e.SomeExpr? {
      ExprAccepted(e.e, scope, pending, k);
    }
  }

  lemma VarAccepted(name: string, init: OptExpr, depth: nat, scope: Scope, k: seq<Const>)
    requires Nested(scope, depth)
    ensures var scoped := OptScoped(init, if depth > 0 then Some(name) else None)
                          && (depth > 0 ==> name !in Here(scope, depth));
            && (DeclCode(Var(name, init), depth, scope, k).ok ==> scoped)
            && (scoped && |scope| + 1 <= 256 && |k| + DeclSize(Var(name, init)) <= 256 ==>
                  DeclCode(Var(name, init), depth, scope, k).ok)
  {
    hide ExprCode, OptScoped, OptSize, ConstCode, Redeclared, Here;
    if depth == 0 {
      var g := ConstCode(OP_DEFINE_GLOBAL, k, NameConst(name));
      ConstProportion(OP_DEFINE_GLOBAL, k, NameConst(name));
      OptAccepted(init, scope, None, g.consts);
    } else {
      RedeclaredIff(scope, depth, name);
      var inner := scope + [Local(name, -1)];
      OptAccepted(init, inner, Some(name), k);
    }
  }

  lemma {:induction false} DeclsAccepted(ds: Decls, depth: nat, scope: Scope, k: seq<Const>)
    requires Nested(scope, depth)
    ensures DeclsCode(ds, depth, scope, k).ok ==> DeclsScoped(ds, depth > 0, Here(scope, depth))
    ensures DeclsScoped(ds, depth > 0, Here(scope, depth)) && |scope| + DeclsSize(ds) <= 256 && |k| + DeclsSize(ds) <= 256 ==>
              DeclsCode(ds, depth, scope, k).ok
  {
    hide DeclCode, StmtCode, StmtSize, OptSize, DeclScoped, Here, Nested;
    match ds
    case Nil =>
    case Cons(d, rest) =>
      DeclProportion(d, depth, scope, k);
      DeclAccepted(d, depth, scope, k);
      DeclsAccepted(rest, depth, DeclScope(d, depth, scope), DeclCode(d, depth, scope, k).consts);
  }

  lemma {:induction false} DeclAccepted(d: Decl, depth: nat, scope: Scope, k: seq<Const>)
    requires Nested(scope, depth)
    ensures DeclCode(d, depth, scope, k).ok ==> DeclScoped(d, depth > 0, Here(scope, depth))
    ensures DeclScoped(d, depth > 0, Here(scope, depth)) && |scope| + DeclSize(d) <= 256 && |k| + DeclSize(d) <= 256 ==>
              DeclCode(d, depth, scope, k).ok
    ensures Nested(DeclScope(d, depth, scope), depth)
    ensures Here(DeclScope(d, depth, scope), depth) == HereAfter(d, depth > 0, Here(scope, depth))
  {
    hide StmtCode, StmtScoped, Here, Nested, ConstCode, InitCode, OptScoped;
    match d
    case Statement(s) => StmtAccepted(s, depth, scope, k);
    case Var(name, init) =>
      VarAccepted(name, init, depth, scope, k);
      if depth > 0 {
        OneMoreHere(scope, depth, name);
      }
  }

  lemma {:induction false} StmtAccepted(s: Stmt, depth: nat, scope: Scope, k: seq<Const>)
    requires Nested(scope, depth)
    ensures StmtCode(s, depth, scope, k).ok ==> StmtScoped(s)
    ensures StmtScoped(s) && |scope| + StmtSize(s) <= 256 && |k| + StmtSize(s) <= 256 ==> StmtCode(s, depth, scope, k).ok
    decreases s, 1
  {
    hide ExprCode, ExprSize, ExprScoped, DeclsCode, DeclsSize, DeclsScope, DeclsScoped, Here;
    match s
    case Expression(e) => ExprAccepted(e, scope, None, k);
    case Print(e) => ExprAccepted(e, scope, None, k);
    case Block(decls) =>
      NewBlock(scope, depth);
      DeclsAccepted(decls, depth + 1, scope, k);
    case If(test, thn, els) => IfAccepted(s, depth, scope, k);
    case While(test, body) =>
      ExprAccepted(test, scope, None, k);
      ExprProportion(test, scope, k);
      var t := ExprCode(test, scope, k);
      StmtAccepted(body, depth, scope, t.consts);
      StmtProportion(body, depth, scope, t.consts);
    case For(init, cond, step, body) => ForAccepted(s, depth, scope, k);
  }

  lemma {:induction false} IfAccepted(s: Stmt, depth: nat, scope: Scope, k: seq<Const>)
    requires Nested(scope, depth) && s.If?
    ensures StmtCode(s, depth, scope, k).ok ==> StmtScoped(s)
    ensures StmtScoped(s) && |scope| + StmtSize(s) <= 256 && |k| + StmtSize(s) <= 256 ==> StmtCode(s, depth, scope, k).ok
    decreases s, 0
  {
    hide ExprCode, ExprSize, ExprScoped;
    var If(test, thn, els) := s;
    ExprAccepted(test, scope, None, k);
    ExprProportion(test, scope, k);
    var t := ExprCode(test, scope, k);
    StmtAccepted(thn, depth, scope, t.consts);
    StmtProportion(thn, depth, scope, t.consts);
    var a := StmtCode(thn, depth, scope, t.consts);
    if els.SomeStmt? {
      StmtAccepted(els.s, depth, scope, a.consts);
      StmtProportion(els.s, depth, scope, a.consts);
    }
    assert StmtCode(s, depth, scope, k).ok ==> t.ok && a.ok && OptStmtCode(els, depth, scope, a.consts).ok;
  }

  lemma {:induction false} ForAccepted(s: Stmt, depth: nat, scope: Scope, k: seq<Const>)
    requires Nested(scope, depth) && s.For?
    ensures StmtCode(s, depth, scope, k).ok ==> StmtScoped(s)
    ensures StmtScoped(s) && |scope| + StmtSize(s) <= 256 && |k| + StmtSize(s) <= 256 ==> StmtCode(s, depth, scope, k).ok
    decreases s, 0
  {
    hide OptExprCode, OptSize, OptScoped, DeclsCode, DeclsSize, DeclsScope, DeclsScoped, Here, LoopCode;
    var For(init, cond, step, body) := s;
    NewBlock(scope, depth);
    DeclsAccepted(init, depth + 1, scope, k);
    DeclsProportion(init, depth + 1, scope, k);
    DeclsNested(init, depth + 1, scope);
    var i, inner := DeclsCode(init, depth + 1, scope, k), DeclsScope(init, depth + 1, scope);
    OptAccepted(cond, inner, None, i.consts);
    OptProportion(cond, inner, i.consts);
    var t := OptExprCode(cond, inner, i.consts);
    OptAccepted(step, inner, None, t.consts);
    OptProportion(step, inner, t.consts);
    var u := OptExprCode(step, inner, t.consts);
    StmtAccepted(body, depth + 1, inner, u.consts);
    StmtProportion(body, depth + 1, inner, u.consts);
    var b := StmtCode(body, depth + 1, inner, u.consts);
    LoopAccepted(cond.SomeExpr?, step.SomeExpr?, t, u, b);
    ForIsLoop(init, cond, step, body, depth, scope, k);
  }

  lemma LoopAccepted(hasCond: bool, hasStep: bool, t: Code, u: Code, b: Code)
    requires hasCond || t.ok
    ensures var c := LoopCode(hasCond, hasStep, t, u, b);
            && (c.ok ==> t.ok && u.ok && b.ok)
            && (t.ok && u.ok && b.ok && |t.bytes| + |u.bytes| + |b.bytes| < 65000 ==> c.ok)
  {
  }

  lemma ForIsLoop(init: Decls, cond: OptExpr, step: OptExpr, body: Stmt, depth: nat, scope: Scope, k: seq<Const>)
    ensures var i, inner := DeclsCode(init, depth + 1, scope, k), DeclsScope(init, depth + 1, scope);
            var t := OptExprCode(cond, inner, i.consts);
            var u := OptExprCode(step, inner, t.consts);
            var b := StmtCode(body, depth + 1, inner, u.consts);
            StmtCode(For(init, cond, step, body), depth, scope, k).ok
            == (i.ok && LoopCode(cond.SomeExpr?, step.SomeExpr?, t, u, b).ok)
  {
    hide OptExprCode, DeclsCode, DeclsScope, LoopCode;
  }

  lemma {:induction false} DeclsNested(ds: Decls, depth: nat, scope: Scope)
    requires Nested(scope, depth)
    ensures Nested(DeclsScope(ds, depth, scope), depth)
  {
    if ds.Cons? {
      DeclsNested(ds.tail, depth, DeclScope(ds.head, depth, scope));
    }
  }

  /** A script that compiles follows the rules about names; one that follows them and has at most 255 names,
      literals, operators and statements compiles. */
  lemma Compiles(script: Decls)
    ensures ScriptCode(script).ok ==> DeclsScoped(script, false, {})
    ensures DeclsScoped(script, false, {}) && DeclsSize(script) <= 255 ==> ScriptCode(script).ok
  {
    hide DeclsCode, DeclsSize;
    var scope := [Local("this", 0)];
    DeclsAccepted(script, 0, scope, []);
    GlobalsMayRepeat(script, Here(scope, 0), {});
  }

  lemma {:induction false} GlobalsMayRepeat(ds: Decls, a: set<string>, b: set<string>)
    ensures DeclsScoped(ds, false, a) <==> DeclsScoped(ds, false, b)
  {
    if ds.Cons? {
      GlobalsMayRepeat(ds.tail, a, b);
    }
  }

  lemma OneScoped(d: Decl, local: bool, here: set<string>)
    ensures DeclsScoped(Cons(d, Nil), local, here) <==> DeclScoped(d, local, here)
    ensures DeclsSize(Cons(d, Nil)) == DeclSize(d)
  {
    hide DeclScoped, DeclSize;
    assert DeclsScoped(Nil, local, HereAfter(d, local, here)) && DeclsSize(Nil) == 0;
  }

  /** A script that is one block. */
  lemma BlockCompiles(decls: Decls)
    requires DeclsSize(decls) <= 254
    ensures ScriptCode(Cons(Statement(Block(decls)), Nil)).ok <==> DeclsScoped(decls, true, {})
  {
    hide DeclsScoped, DeclsSize;
    Compiles(Cons(Statement(Block(decls)), Nil));
    OneScoped(Statement(Block(decls)), false, {});
  }

  /** A name may be declared again in a block within, but not in the same block. */
  lemma DeclaredTwice(name: string)
    ensures var d := Var(name, NoExpr);
            && ScriptCode(Cons(Statement(Block(Cons(d, Cons(Statement(Block(Cons(d, Nil))), Nil)))), Nil)).ok
            && !ScriptCode(Cons(Statement(Block(Cons(d, Cons(d, Nil)))), Nil)).ok
  {
    hide ScriptCode;
    var d := Var(name, NoExpr);
    var inner := Statement(Block(Cons(d, Nil)));
    OneScoped(d, true, {});
    OneScoped(d, true, {name});
    OneScoped(inner, true, {name});
    var none: set<string> := {};
    assert none + {name} == {name};
    BlockCompiles(Cons(d, Cons(inner, Nil)));
    BlockCompiles(Cons(d, Cons(d, Nil)));
  }

  /** In its own initialiser a local is not visible, and what it hides is not either; a global is. */
  lemma InitialisedByItself(name: string)
    requires name != "this"
    ensures var d := Var(name, SomeExpr(Expr(Variable(name), End)));
            && !ScriptCode(Cons(Statement(Block(Cons(d, Nil))), Nil)).ok
            && ScriptCode(Cons(d, Nil)).ok
  {
    hide ScriptCode;
    var e := Expr(Variable(name), End);
    var d := Var(name, SomeExpr(e));
    assert OperandScoped(e.first, None) && !OperandScoped(e.first, Some(name)) && OperandSize(e.first) == 1;
    assert RestScoped(End, None) && RestSize(End) == 0;
    OneScoped(d, true, {});
    OneScoped(d, false, {});
    BlockCompiles(Cons(d, Nil));
    Compiles(Cons(d, Nil));
  }

  // ---- the limits ----

  /** `n` variables of different names: `x`, `xx` and so on. */
  function Variables(n: nat): Decls {
    if n == 0 then Nil else Cons(Var(seq(n, _ => 'x'), NoExpr), Variables(n - 1))
  }

  /** A block has room for 255 variables, besides the function in slot 0. */
  lemma LocalsLimit(n: nat)
    ensures ScriptCode(Cons(Statement(Block(Variables(n))), Nil)).ok <==> n <= 255
  {
    hide DeclCode, DeclsCode;
    var scope := [Local("this", 0)];
    NewBlock(scope, 0);
    VariablesFit(n, scope, []);
    OneStatement(Block(Variables(n)), scope);
  }

  lemma {:induction false} VariablesFit(n: nat, scope: Scope, k: seq<Const>)
    requires Nested(scope, 1) && forall name :: name in Here(scope, 1) ==> |name| > n
    ensures DeclsCode(Variables(n), 1, scope, k).ok <==> n == 0 || |scope| + n <= 256
    decreases n
  {
    hide Here, Nested, Redeclared;
    if n > 0 {
      var name := seq(n, _ => 'x');
      RedeclaredIff(scope, 1, name);
      OneMoreHere(scope, 1, name);
      VariablesFit(n - 1, scope + [Local(name, 1)], DeclCode(Var(name, NoExpr), 1, scope, k).consts);
    }
  }

  /** There is room for the names of 256 globals. */
  lemma ConstantsLimit(n: nat)
    ensures ScriptCode(Variables(n)).ok <==> n <= 256
  {
    GlobalsFit(n, [Local("this", 0)], []);
  }

  lemma {:induction false} GlobalsFit(n: nat, scope: Scope, k: seq<Const>)
    requires forall i :: 0 <= i < |k| ==> k[i].NameConst? && |k[i].name| > n
    ensures DeclsCode(Variables(n), 0, scope, k).ok <==> n == 0 || |k| + n <= 256
    decreases n
  {
    if n > 0 {
      var name := seq(n, _ => 'x');
      var k' := k + [NameConst(name)];
      assert ConstIndex(k, NameConst(name)) == |k|;
      GlobalsFit(n - 1, scope, k');
    }
  }

  /** `n` times `print nil`. */
  function Prints(n: nat): Decls {
    if n == 0 then Nil else Cons(Statement(Print(Expr(NilLiteral, End))), Prints(n - 1))
  }

  lemma OneLiteral(o: Operand, scope: Scope, k: seq<Const>)
    requires o == NilLiteral || o == True
    ensures ExprCode(Expr(o, End), scope, k) == Code([if o == True then OP_TRUE else OP_NIL], k, true)
  {
    assert OperandCode(o, scope, k).consts == k && RestCode(End, scope, k) == Code([], k, true);
  }

  lemma {:induction false} PrintsLength(n: nat, scope: Scope, k: seq<Const>)
    ensures var c := DeclsCode(Prints(n), 1, scope, k); |c.bytes| == 2 * n && c.ok
    ensures DeclsScope(Prints(n), 1, scope) == scope
    decreases n
  {
    if n > 0 {
      var nilPrint := Print(Expr(NilLiteral, End));
      PrintsLength(n - 1, scope, StmtCode(nilPrint, 1, scope, k).consts);
      OneLiteral(NilLiteral, scope, k);
    }
  }

  /** A branch may be 65535 bytes long, a jump and the pop at its beginning included. */
  lemma BranchLimit(n: nat)
    ensures ScriptCode(Cons(Statement(If(Expr(True, End), Block(Prints(n)), NoStmt)), Nil)).ok <==> 2 * n + 4 <= 65535
  {
    hide DeclCode, DeclsCode;
    var scope := [Local("this", 0)];
    PrintsLength(n, scope, []);
    var branch := If(Expr(True, End), Block(Prints(n)), NoStmt);
    OneLiteral(True, scope, []);
    OneStatement(branch, scope);
  }

  /** So may the body of a loop be, with what surrounds it. */
  lemma BodyLimit(n: nat)
    ensures ScriptCode(Cons(Statement(While(Expr(True, End), Block(Prints(n)))), Nil)).ok <==> 2 * n + 8 <= 65535
  {
    hide DeclCode, DeclsCode;
    var scope := [Local("this", 0)];
    PrintsLength(n, scope, []);
    OneLiteral(True, scope, []);
    OneStatement(While(Expr(True, End), Block(Prints(n))), scope);
  }

  lemma OneStatement(s: Stmt, scope: Scope)
    ensures DeclsCode(Cons(Statement(s), Nil), 0, scope, []).ok == StmtCode(s, 0, scope, []).ok
  {
    hide StmtCode;
    assert DeclsCode(Nil, 0, scope, StmtCode(s, 0, scope, []).consts).ok;
  }
}
