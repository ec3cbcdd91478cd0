/** The compiler as it works: bytes appended to a chunk, jumps patched in place, locals pushed and
    popped (cyarg/compiler.c).  It emits exactly the code that `Codegen` describes. */
module Compiler {
  import opened Language
  import opened Bytecode
  import opened Codegen

  const UINT8_COUNT := 256

  /** `after` is `before` with all of `c` appended; an error, if there is one, lies in either part. */
  ghost predicate Adds(before: Code, after: Code, c: Code) {
    && |before.bytes| <= |after.bytes|
    && (after.ok <==> before.ok && c.ok)
    && (after.ok ==> after == Then(before, c))
  }

  lemma AddsThen(x: Code, y: Code, z: Code, c: Code, d: Code, e: Code)
    requires Adds(x, y, c) && Adds(y, z, d) && (y.ok ==> d == e)
    ensures Adds(x, z, Then(c, e))
    ensures z.ok ==> z.consts == e.consts && |z.bytes| == |y.bytes| + |e.bytes|
    ensures |x.bytes| <= |y.bytes| <= |z.bytes| && (z.ok ==> y.ok)
  {
    assert (x.bytes + c.bytes) + d.bytes == x.bytes + (c.bytes + d.bytes);
  }

  lemma AddsFacts(x: Code, y: Code, c: Code)
    requires Adds(x, y, c)
    ensures |x.bytes| <= |y.bytes| && (y.ok <==> x.ok && c.ok)
    ensures y.ok ==> y.consts == c.consts && |y.bytes| == |x.bytes| + |c.bytes|
  {
  }

  lemma AddsNothing(x: Code)
    ensures Adds(x, x, Code([], x.consts, true))
  {
  }

  /** `patchJump`: the distance from a place-holder to the end of the code, put over it. */
  function Patch(y: Code, offset: nat): (z: Code)
    requires offset + 2 <= |y.bytes|
    ensures |z.bytes| == |y.bytes|
  {
    var jump := |y.bytes| - offset - 2;
    Code(y.bytes[offset := Codegen.Low(jump / 256)][offset + 1 := Codegen.Low(jump)], y.consts, y.ok && Fits16(jump))
  }

  function Hole(op: Byte): seq<Byte> {
    [op, 255, 255]
  }

  /** Patching makes a place-holder into a jump over everything emitted since. */
  lemma PatchAdds(x: Code, y: Code, offset: nat, pre: seq<Byte>, op: Byte, body: seq<Byte>, c: Code)
    requires offset + 2 <= |y.bytes| && Adds(x, y, c) && c.bytes == pre + Hole(op) + body
    requires y.ok ==> offset == |x.bytes| + |pre| + 1
    ensures Adds(x, Patch(y, offset), Code(pre + JumpOver(op, body) + body, c.consts, c.ok && Fits16(|body|)))
  {
    if y.ok {
      assert y.bytes == x.bytes + pre + Hole(op) + body;
      PatchShape(x.bytes + pre, op, body);
      assert x.bytes + (pre + JumpOver(op, body) + body) == x.bytes + pre + JumpOver(op, body) + body;
    }
  }

  lemma PatchShape(pre: seq<Byte>, op: Byte, body: seq<Byte>)
    ensures var c := pre + Hole(op) + body;
            c[|pre| + 1 := Codegen.Low(|body| / 256)][|pre| + 2 := Codegen.Low(|body|)] == pre + JumpOver(op, body) + body
  {
  }

  /** A scope whose variables are all initialised. */
  ghost predicate Settled(scope: Scope, depth: int) {
    forall i :: 0 <= i < |scope| ==> 0 <= scope[i].depth <= depth
  }

  /** `inner` is `outer` with the variables of one more scope, which is `depth` deep. */
  ghost predicate Opened(outer: Scope, inner: Scope, depth: int) {
    && Settled(outer, depth - 1) && outer <= inner
    && forall i :: |outer| <= i < |inner| ==> inner[i].depth == depth
  }

  lemma DeclsScopeOpened(ds: Decls, depth: nat, scope: Scope)
    requires depth > 0 && Settled(scope, depth - 1)
    ensures Settled(scope, depth) && Settled(DeclsScope(ds, depth, scope), depth)
    ensures Opened(scope, DeclsScope(ds, depth, scope), depth)
  {
    DeclsScopeDepth(ds, depth, scope);
  }

  lemma {:induction false} DeclsScopeDepth(ds: Decls, depth: nat, scope: Scope)
    requires depth > 0
    ensures forall i :: |scope| <= i < |DeclsScope(ds, depth, scope)| ==> DeclsScope(ds, depth, scope)[i].depth == depth
    decreases ds
  {
    match ds
    case Nil =>
    case Cons(d, rest) => DeclsScopeDepth(rest, depth, DeclScope(d, depth, scope));
  }

  class Compiler {
    var code: seq<Byte>
    var constants: seq<Const>
    const locals: array<Local>
    var localCount: nat
    var scopeDepth: nat
    var errors: seq<string>
    var panicMode: bool

    ghost predicate Valid()
      reads `localCount, `errors, `panicMode, locals
    {
      && locals.Length == UINT8_COUNT && 1 <= localCount <= UINT8_COUNT
      && locals[0].depth == 0
      && (panicMode ==> errors != [])
    }

    ghost function Scope(): (s: Codegen.Scope)
      reads `localCount, locals
    {
      if localCount <= locals.Length then locals[..localCount] else []
    }

    /** The output so far, and whether no error has been reported. */
    ghost function Out(): Code
      reads `code, `constants, `errors
    {
      Code(code, constants, errors == [])
    }

    twostate predicate Emits(c: Code)
      reads `code, `constants, `errors
    {
      Adds(old(Out()), Out(), c)
    }

    constructor ()
      ensures Valid() && fresh(locals)
      ensures code == [] && constants == [] && errors == [] && scopeDepth == 0
      ensures Scope() == [Local("this", 0)]
    {
      code, constants, errors, panicMode := [], [], [], false;
      scopeDepth, localCount := 0, 1;
      locals := new Local[UINT8_COUNT](_ => Local("this", 0));
    }

    method ErrorAt(message: string)
      requires Valid()
      modifies `errors, `panicMode
      ensures Valid() && errors != []
    {
      if panicMode {
        return;
      }
      panicMode := true;
      errors := errors + [message];
    }

    method EmitByte(b: Byte)
      modifies `code
      ensures code == old(code) + [b] && Emits(Code([b], constants, true))
    {
      code := code + [b];
    }

    method EmitBytes(a: Byte, b: Byte)
      modifies `code
      ensures code == old(code) + [a, b] && Emits(Code([a, b], constants, true))
    {
      EmitByte(a);
      EmitByte(b);
    }

    method EmitLoop(loopStart: nat)
      requires Valid() && loopStart <= |code|
      modifies `code, `errors, `panicMode
      ensures Valid() && |code| == |old(code)| + 3
      ensures var back := |old(code)| - loopStart + 3;
              Emits(Code(JumpAhead(OP_LOOP, back), constants, Fits16(back)))
    {
      EmitByte(OP_LOOP);
      var offset := |code| - loopStart + 2;
      if offset > UINT16_MAX {
        ErrorAt("Loop body too large.");
      }
      EmitByte(Codegen.Low(offset / 256));
      EmitByte(Codegen.Low(offset));
    }

    method EmitJump(instruction: Byte) returns (offset: nat)
      modifies `code
      ensures |code| == |old(code)| + 3 && offset == |old(code)| + 1
      ensures Emits(Code(Hole(instruction), constants, true))
    {
      EmitByte(instruction);
      EmitByte(255);
      EmitByte(255);
      offset := |code| - 2;
    }

    method PatchJump(offset: nat)
      requires Valid() && offset + 2 <= |code|
      modifies `code, `errors, `panicMode
      ensures Valid() && Out() == Patch(old(Out()), offset)
    {
      var jump := |code| - offset - 2;
      if jump > UINT16_MAX {
        ErrorAt("Too much code to jump over.");
      }
      code := code[offset := Codegen.Low(jump / 256)];
      code := code[offset + 1 := Codegen.Low(jump)];
    }

    // ---- names and constants ----

    method ResolveLocal(name: string) returns (arg: int)
      requires Valid()
      modifies `errors, `panicMode
      ensures Valid()
      ensures arg == Resolve(Scope(), name)
      ensures old(errors) == [] ==> (errors == [] <==> !(arg >= 0 && Scope()[arg].depth == -1))
      ensures old(errors) != [] ==> errors != []
    {
      var i := localCount - 1;
      while i >= 0
        invariant -1 <= i < localCount
        invariant forall j :: i < j < localCount ==> Scope()[j].name != name
      {
        if locals[i].name == name {
          if locals[i].depth == -1 {
            ErrorAt("Can't read local variable in its own initializer.");
          }
          return i;
        }
        i := i - 1;
      }
      return -1;
    }

    method AddLocal(name: string)
      requires Valid()
      modifies `localCount, `errors, `panicMode, locals
      ensures Valid() && localCount >= old(localCount)
      ensures old(localCount) < UINT8_COUNT ==>
                errors == old(errors) && Scope() == old(Scope()) + [Local(name, -1)]
      ensures old(localCount) == UINT8_COUNT ==> errors != [] && localCount == UINT8_COUNT
    {
      if localCount == UINT8_COUNT {
        ErrorAt("Too many local variables in function.");
        return;
      }
      locals[localCount] := Local(name, -1);
      localCount := localCount + 1;
    }

    method AddConstant(c: Const) returns (i: nat)
      modifies `constants
      ensures i == ConstIndex(old(constants), c) && constants == AddConst(old(constants), c)
    {
      i := 0;
      while i < |constants|
        invariant i <= |constants|
        invariant constants == old(constants)
        invariant ConstIndex(constants, c) == i + ConstIndex(constants[i..], c)
      {
        if constants[i] == c {
          return;
        }
        assert constants[i..][1..] == constants[i + 1..];
        i := i + 1;
      }
      constants := constants + [c];
    }

    method MakeConstant(c: Const) returns (b: Byte)
      requires Valid()
      modifies `constants, `errors, `panicMode
      ensures Valid()
      ensures var i := ConstIndex(old(constants), c);
              && constants == AddConst(old(constants), c) && b == (if i <= UINT8_MAX then i else 0)
              && (old(errors) == [] ==> (errors == [] <==> i <= UINT8_MAX))
      ensures old(errors) != [] ==> errors != []
    {
      var constant := AddConstant(c);
      if constant > UINT8_MAX {
        ErrorAt("Too many constants in one chunk.");
        return 0;
      }
      return constant;
    }

    method DeclareVariable(name: string)
      requires Valid()
      modifies `localCount, `errors, `panicMode, locals
      ensures Valid() && (scopeDepth > 0 ==> localCount >= 2)
      ensures scopeDepth == 0 ==> errors == old(errors) && Scope() == old(Scope())
      ensures old(errors) != [] ==> errors != []
      ensures scopeDepth > 0 && old(errors) == [] ==>
                && (errors == [] <==> !Redeclared(old(Scope()), name, scopeDepth) && |old(Scope())| <= UINT8_MAX)
                && (errors == [] ==> Scope() == old(Scope()) + [Local(name, -1)])
    {
      if scopeDepth == 0 {
        return;
      }
      var i := localCount - 1;
      assert Scope()[..i + 1] == Scope();
      while i >= 0
        invariant -1 <= i < localCount
        invariant Redeclared(Scope(), name, scopeDepth) == Redeclared(Scope()[..i + 1], name, scopeDepth)
      {
        assert Scope()[..i + 1][i] == locals[i];
        if locals[i].depth != -1 && locals[i].depth < scopeDepth {
          break;
        }
        if locals[i].name == name {
          ErrorAt("Already a variable with this name in this scope.");
          return;
        }
        assert Scope()[..i + 1][..i] == Scope()[..i];
        i := i - 1;
      }
      AddLocal(name);
    }

    // ---- expressions ----

    method EmitImmediateConstant(v: int)
      requires -UINT24_MAX <= v <= UINT24_MAX
      modifies `code
      ensures code == old(code) + NumberCode(v, constants).bytes
    {
      if -UINT8_MAX <= v <= UINT8_MAX {
        if v < 0 {
          EmitBytes(OP_IMMEDIATE_N8, -v);
        } else {
          EmitBytes(OP_IMMEDIATE_P8, v);
        }
      } else if -UINT16_MAX <= v <= UINT16_MAX {
        var w: nat := if v < 0 then -v else v;
        if v < 0 {
          EmitBytes(OP_IMMEDIATE_N16, w % 256);
        } else {
          EmitBytes(OP_IMMEDIATE_P16, w % 256);
        }
        EmitByte(w / 256);
      } else {
        var w: nat := if v < 0 then -v else v;
        if v < 0 {
          EmitBytes(OP_IMMEDIATE_N24, w % 256);
        } else {
          EmitBytes(OP_IMMEDIATE_P24, w % 256);
        }
        EmitBytes(w / 256 % 256, w / 65536);
      }
    }

    method GenerateNumber(n: int)
      requires Valid()
      modifies `code, `constants, `errors, `panicMode
      ensures Valid() && Emits(NumberCode(n, old(constants)))
    {
      if -UINT24_MAX <= n <= UINT24_MAX {
        EmitImmediateConstant(n);
      } else {
        var b := MakeConstant(IntConst(n));
        EmitBytes(OP_CONSTANT, b);
      }
    }

    /** The opcode's operand is found before anything else is emitted. */
    method ResolveVariable(name: string) returns (arg: Byte, isLocal: bool)
      requires Valid()
      modifies `constants, `errors, `panicMode
      ensures Valid() && |old(code)| <= |code|
      ensures old(errors) != [] ==> errors != []
      ensures old(errors) == [] ==> forall localOp: Byte, globalOp: Byte ::
                var c := VariableCode(localOp, globalOp, Scope(), name, old(constants));
                && (errors == [] <==> c.ok)
                && (c.ok ==> c.bytes == [if isLocal then localOp else globalOp, arg] && constants == c.consts)
      ensures constants == VariableConsts(Scope(), name, old(constants))
    {
      var i := ResolveLocal(name);
      isLocal := i != -1;
      if isLocal {
        arg := i;
      } else {
        arg := MakeConstant(NameConst(name));
      }
    }

    method GenerateNamedVariable(name: string)
      requires Valid()
      modifies `code, `constants, `errors, `panicMode
      ensures Valid() && Emits(OperandCode(Variable(name), Scope(), old(constants)))
    {
      if name == "this" {
        ErrorAt("Can't use 'this' outside of a class.");
        return;
      }
      var arg, isLocal := ResolveVariable(name);
      EmitBytes(if isLocal then OP_GET_LOCAL else OP_GET_GLOBAL, arg);
    }

    method GenerateAssignment(name: string, value: Expr)
      requires Valid()
      modifies `code, `constants, `errors, `panicMode
      ensures Valid() && Emits(OperandCode(Assign(name, value), Scope(), old(constants)))
      decreases value, 2
    {
      hide ExprCode, VariableCode, VariableConsts;
      if name == "this" {
        ErrorAt("Can't use 'this' outside of a class.");
        return;
      }
      var arg, isLocal := ResolveVariable(name);
      GenerateExpr(value);
      EmitByte(OP_DUPLICATE);
      EmitBytes(if isLocal then OP_SET_LOCAL else OP_SET_GLOBAL, arg);
    }

    method GenerateUnary(op: UnaryOp, rhs: Expr)
      requires Valid()
      modifies `code, `constants, `errors, `panicMode
      ensures Valid() && Emits(OperandCode(Unary(op, rhs), Scope(), old(constants)))
      decreases rhs, 2
    {
      hide ExprCode;
      GenerateExpr(rhs);
      EmitByte(if op == Not then OP_NOT else OP_NEGATE);
    }

    method EmitOperator(op: BinaryOp)
      modifies `code
      ensures code == old(code) + OperatorCode(op)
    {
      match op
      case Equal => EmitByte(OP_EQUAL);
      case Greater => EmitByte(OP_GREATER);
      case Less => EmitByte(OP_LESS);
      case Add => EmitByte(OP_ADD);
      case Subtract => EmitByte(OP_SUBTRACT);
      case Multiply => EmitByte(OP_MULTIPLY);
      case Divide => EmitByte(OP_DIVIDE);
      case Modulo => EmitByte(OP_MODULO);
      case NotEqual => EmitBytes(OP_EQUAL, OP_NOT);
      case GreaterEqual => EmitBytes(OP_LESS, OP_NOT);
      case LessEqual => EmitBytes(OP_GREATER, OP_NOT);
    }

    /** The pop of the left operand and the right one. */
    method GenerateRight(rhs: Expr)
      requires Valid()
      modifies `code, `constants, `errors, `panicMode
      ensures Valid()
      ensures var r := ExprCode(rhs, Scope(), old(constants)); Emits(r.(bytes := [OP_POP] + r.bytes))
      decreases rhs, 2
    {
      hide ExprCode;
      EmitByte(OP_POP);
      GenerateExpr(rhs);
    }

    method GenerateAnd(rhs: Expr)
      requires Valid()
      modifies `code, `constants, `errors, `panicMode
      ensures Valid() && Emits(AndCode(ExprCode(rhs, Scope(), old(constants))))
      decreases rhs, 3
    {
      hide Valid, Scope, Adds, Patch, ExprCode, JumpAhead;
      ghost var x, r := Out(), ExprCode(rhs, Scope(), constants);
      ghost var body := r.(bytes := [OP_POP] + r.bytes);
      var endJump := EmitJump(OP_JUMP_IF_FALSE);
      ghost var y, c := Out(), Code(Hole(OP_JUMP_IF_FALSE), constants, true);
      GenerateRight(rhs);
      AddsThen(x, y, Out(), c, body, body);
      assert Then(c, body).bytes == [] + Hole(OP_JUMP_IF_FALSE) + body.bytes;
      PatchAdds(x, Out(), endJump, [], OP_JUMP_IF_FALSE, body.bytes, Then(c, body));
      PatchJump(endJump);
      assert [] + JumpOver(OP_JUMP_IF_FALSE, body.bytes) == JumpOver(OP_JUMP_IF_FALSE, body.bytes);
    }

    method GenerateOr(rhs: Expr)
      requires Valid()
      modifies `code, `constants, `errors, `panicMode
      ensures Valid() && Emits(OrCode(ExprCode(rhs, Scope(), old(constants))))
      decreases rhs, 3
    {
      hide Valid, Scope, Adds, Patch, ExprCode, JumpAhead;
      ghost var x, r := Out(), ExprCode(rhs, Scope(), constants);
      ghost var body := r.(bytes := [OP_POP] + r.bytes);
      var elseJump := EmitJump(OP_JUMP_IF_FALSE);
      ghost var y, c := Out(), Code(Hole(OP_JUMP_IF_FALSE), constants, true);
      AddsFacts(x, y, c);
      var endJump := EmitJump(OP_JUMP);
      ghost var d := Code(Hole(OP_JUMP), constants, true);
      AddsThen(x, y, Out(), c, d, d);
      assert Then(c, d).bytes == [] + Hole(OP_JUMP_IF_FALSE) + Hole(OP_JUMP);
      PatchAdds(x, Out(), elseJump, [], OP_JUMP_IF_FALSE, Hole(OP_JUMP), Then(c, d));
      ghost var pre := [] + JumpOver(OP_JUMP_IF_FALSE, Hole(OP_JUMP));
      PatchJump(elseJump);
      y, c := Out(), Code(pre + Hole(OP_JUMP), constants, true);
      GenerateRight(rhs);
      AddsThen(x, y, Out(), c, body, body);
      JumpLength(OP_JUMP_IF_FALSE, 3);
      PatchAdds(x, Out(), endJump, pre, OP_JUMP, body.bytes, Then(c, body));
      PatchJump(endJump);
      JumpLength(OP_JUMP, |body.bytes|);
      assert pre == JumpOver(OP_JUMP_IF_FALSE, JumpOver(OP_JUMP, body.bytes));
    }

    method GenerateOperand(o: Operand)
      requires Valid()
      modifies `code, `constants, `errors, `panicMode
      ensures Valid() && Emits(OperandCode(o, Scope(), old(constants)))
      decreases o, 0
    {
      hide ExprCode, NumberCode, VariableCode;
      match o
      case Number(n) => GenerateNumber(n);
      case True => EmitByte(OP_TRUE);
      case False => EmitByte(OP_FALSE);
      case NilLiteral => EmitByte(OP_NIL);
      case Grouping(e) => GenerateExpr(e);
      case Variable(name) => GenerateNamedVariable(name);
      case Assign(name, value) => GenerateAssignment(name, value);
      case Unary(op, rhs) => GenerateUnary(op, rhs);
    }

    /** One link of the chain: what it emits before the rest. */
    method GenerateOperation(ops: Operations)
      requires Valid() && !ops.End?
      modifies `code, `constants, `errors, `panicMode
      ensures Valid() && Emits(OperationCode(ops, Scope(), old(constants)))
      decreases ops, 0
    {
      hide ExprCode, AndCode, OrCode;
      match ops
      case Binary(op, rhs, _) =>
        GenerateExpr(rhs);
        EmitOperator(op);
      case And(rhs, _) => GenerateAnd(rhs);
      case Or(rhs, _) => GenerateOr(rhs);
    }

    method GenerateExpr(e: Expr)
      requires Valid()
      modifies `code, `constants, `errors, `panicMode
      ensures Valid() && Emits(ExprCode(e, Scope(), old(constants)))
      decreases e, 1
    {
      hide OperandCode, RestCode, OperationCode;
      GenerateOperand(e.first);
      var rest := e.rest;
      ghost var c := OperandCode(e.first, Scope(), old(constants));
      while !rest.End?
        invariant Valid() && Emits(c)
        invariant ExprCode(e, Scope(), old(constants)) == Then(c, RestCode(rest, Scope(), c.consts))
        invariant e decreases to rest
        decreases rest
      {
        ghost var step := OperationCode(rest, Scope(), c.consts);
        RestStep(rest, Scope(), c.consts);
        GenerateOperation(rest);
        c := Then(c, step);
        rest := rest.rest;
      }
      RestEnd(Scope(), c.consts);
    }

    // ---- declarations and statements ----

    method MarkInitialized()
      requires Valid() && (scopeDepth > 0 ==> localCount >= 2)
      modifies locals
      ensures Valid()
      ensures scopeDepth == 0 ==> Scope() == old(Scope())
      ensures scopeDepth > 0 ==>
                var i := localCount - 1;
                Scope() == old(Scope())[..i] + [Local(old(Scope())[i].name, scopeDepth)]
    {
      if scopeDepth == 0 {
        return;
      }
      var i := localCount - 1;
      locals[i] := locals[i].(depth := scopeDepth);
      assert Scope() == old(Scope())[..i] + [Local(old(Scope())[i].name, scopeDepth)];
    }

    method GenerateInit(init: OptExpr)
      requires Valid()
      modifies `code, `constants, `errors, `panicMode
      ensures Valid() && Emits(InitCode(init, Scope(), old(constants)))
    {
      hide ExprCode;
      EmitByte(OP_NIL);
      EmitByte(OP_SET_CELL_TYPE);
      if init.SomeExpr? {
        GenerateExpr(init.e);
        EmitByte(OP_DUPLICATE);
        EmitByte(OP_INITIALISE);
      }
    }

    method GenerateVarDeclaration(name: string, init: OptExpr)
      requires Valid()
      modifies this, locals
      ensures Valid() && scopeDepth == old(scopeDepth)
      ensures Emits(DeclCode(Var(name, init), scopeDepth, old(Scope()), old(constants)))
      ensures errors == [] ==> Scope() == DeclScope(Var(name, init), scopeDepth, old(Scope()))
    {
      hide InitCode;
      if scopeDepth > 0 {
        DeclareVariable(name);
        GenerateInit(init);
        MarkInitialized();
      } else {
        var global := MakeConstant(NameConst(name));
        GenerateInit(init);
        EmitBytes(OP_DEFINE_GLOBAL, global);
      }
    }

    method BeginScope()
      requires Valid()
      modifies `scopeDepth
      ensures Valid() && scopeDepth == old(scopeDepth) + 1
    {
      scopeDepth := scopeDepth + 1;
    }

    /** Pops exactly the variables declared since the scope was opened. */
    method EndScope(ghost outer: Codegen.Scope)
      requires Valid() && scopeDepth > 0
      modifies `code, `scopeDepth, `localCount
      ensures Valid() && scopeDepth == old(scopeDepth) - 1 && |old(code)| <= |code|
      ensures Opened(outer, old(Scope()), old(scopeDepth)) ==>
                Scope() == outer && Emits(Code(PopCode(|old(Scope())| - |outer|), constants, true))
      ensures errors == old(errors)
    {
      hide Adds, PopCode;
      scopeDepth := scopeDepth - 1;
      ghost var x, inScope := Out(), Opened(outer, Scope(), scopeDepth + 1);
      PopNone(x);
      while localCount > 0 && locals[localCount - 1].depth > scopeDepth
        invariant Valid() && scopeDepth == old(scopeDepth) - 1
        invariant localCount <= old(localCount) && |old(code)| <= |code|
        invariant inScope ==> |outer| <= localCount && Adds(x, Out(), Code(PopCode(old(localCount) - localCount), constants, true))
      {
        assert locals[localCount - 1] == old(Scope())[localCount - 1];
        ghost var y := Out();
        EmitByte(OP_POP);
        if inScope {
          PopMore(x, y, Out(), old(localCount) - localCount);
        }
        localCount := localCount - 1;
      }
    }

    method Generate(ds: Decls)
      requires Valid() && (errors == [] ==> Settled(Scope(), scopeDepth))
      modifies this, locals
      ensures Valid() && scopeDepth == old(scopeDepth)
      ensures Emits(DeclsCode(ds, scopeDepth, old(Scope()), old(constants)))
      ensures errors == [] ==> Scope() == DeclsScope(ds, scopeDepth, old(Scope()))
      decreases ds, 1
    {
      hide Valid, Scope, Adds, DeclCode, DeclsCode, DeclsScope, DeclScope, Settled;
      var rest := ds;
      ghost var x := Out();
      ghost var c, scope := Code([], constants, true), Scope();
      AddsNothing(x);
      while !rest.Nil?
        invariant Valid() && scopeDepth == old(scopeDepth) && Adds(x, Out(), c)
        invariant errors == [] ==> Scope() == scope && Settled(scope, scopeDepth) && constants == c.consts
        invariant DeclsCode(ds, scopeDepth, old(Scope()), old(constants)) == Then(c, DeclsCode(rest, scopeDepth, scope, c.consts))
        invariant DeclsScope(ds, scopeDepth, old(Scope())) == DeclsScope(rest, scopeDepth, scope)
        invariant rest == ds || (ds decreases to rest)
        decreases rest
      {
        ghost var y, d := Out(), DeclCode(rest.head, scopeDepth, Scope(), constants);
        ghost var e := DeclCode(rest.head, scopeDepth, scope, c.consts);
        DeclsStep(rest, scopeDepth, scope, c.consts);
        GenerateDecl(rest.head);
        AddsThen(x, y, Out(), c, d, e);
        ThenAssoc(c, e, DeclsCode(rest.tail, scopeDepth, DeclScope(rest.head, scopeDepth, scope), e.consts));
        if y.ok {
          DeclSettled(rest.head, scopeDepth, scope);
        }
        c, scope := Then(c, e), DeclScope(rest.head, scopeDepth, scope);
        rest := rest.tail;
      }
      DeclsEnd(scopeDepth, scope, c.consts);
      ThenNothing(c);
    }

    method GenerateDecl(d: Decl)
      requires Valid() && (errors == [] ==> Settled(Scope(), scopeDepth))
      modifies this, locals
      ensures Valid() && scopeDepth == old(scopeDepth)
      ensures Emits(DeclCode(d, scopeDepth, old(Scope()), old(constants)))
      ensures errors == [] ==> Scope() == DeclScope(d, scopeDepth, old(Scope()))
      decreases d, 0
    {
      hide StmtCode, InitCode;
      panicMode := false;
      match d
      case Var(name, init) => GenerateVarDeclaration(name, init);
      case Statement(s) => GenerateStmt(s);
    }

    method GenerateStmt(s: Stmt)
      requires Valid() && (errors == [] ==> Settled(Scope(), scopeDepth))
      modifies this, locals
      ensures Valid() && scopeDepth == old(scopeDepth)
      ensures Emits(StmtCode(s, scopeDepth, old(Scope()), old(constants)))
      ensures errors == [] ==> Scope() == old(Scope())
      decreases s, 1
    {
      hide ExprCode, DeclsCode, DeclsScope, IfCode, WhileCode, LoopCode;
      panicMode := false;
      match s
      case Expression(e) =>
        GenerateExpr(e);
        EmitByte(OP_POP);
      case Print(e) =>
        GenerateExpr(e);
        EmitByte(OP_PRINT);
      case Block(decls) => GenerateBlock(decls);
      case If(test, thn, els) => GenerateIf(test, thn, els);
      case While(test, body) => GenerateWhile(test, body);
      case For(init, cond, step, body) => GenerateFor(init, cond, step, body);
    }

    method GenerateBlock(decls: Decls)
      requires Valid() && (errors == [] ==> Settled(Scope(), scopeDepth))
      modifies this, locals
      ensures Valid() && scopeDepth == old(scopeDepth)
      ensures Emits(StmtCode(Block(decls), scopeDepth, old(Scope()), old(constants)))
      ensures errors == [] ==> Scope() == old(Scope())
      decreases decls, 2
    {
      hide Valid, Scope, Settled, Opened, PopCode, DeclsCode, DeclsScope;
      BeginScope();
      if errors == [] {
        DeclsScopeOpened(decls, scopeDepth, Scope());
      }
      Generate(decls);
      EndScope(old(Scope()));
    }

    method GenerateIf(test: Expr, thn: Stmt, els: OptStmt)
      requires Valid() && (errors == [] ==> Settled(Scope(), scopeDepth))
      modifies this, locals
      ensures Valid() && scopeDepth == old(scopeDepth)
      ensures Emits(StmtCode(If(test, thn, els), scopeDepth, old(Scope()), old(constants)))
      ensures errors == [] ==> Scope() == old(Scope())
      decreases If(test, thn, els), 0
    {
      hide Valid, Scope, Settled, Adds, Patch, ExprCode, StmtCode, OptStmtCode, JumpAhead, IfCode;
      IfStep(test, thn, els, scopeDepth, Scope(), constants);
      ghost var x, c := Out(), ExprCode(test, Scope(), constants);
      ghost var a := StmtCode(thn, scopeDepth, Scope(), c.consts);
      ghost var b := OptStmtCode(els, scopeDepth, Scope(), a.consts);
      IfShape(c, a, b);
      ghost var thenPart := a.(bytes := [OP_POP] + a.bytes + Hole(OP_JUMP));
      ghost var elsePart := b.(bytes := [OP_POP] + b.bytes);
      ghost var t := c;
      GenerateExpr(test);
      AddsFacts(x, Out(), c);
      ghost var y, d := Out(), Code(Hole(OP_JUMP_IF_FALSE), constants, true);
      var thenJump := EmitJump(OP_JUMP_IF_FALSE);
      AddsThen(x, y, Out(), c, d, d.(consts := c.consts));
      c, y, d := Then(c, d.(consts := c.consts)), Out(), StmtCode(thn, scopeDepth, Scope(), constants);
      var elseJump := GenerateThen(thn);
      AddsThen(x, y, Out(), c, d.(bytes := [OP_POP] + d.bytes + Hole(OP_JUMP)), thenPart);
      PatchAdds(x, Out(), thenJump, t.bytes, OP_JUMP_IF_FALSE, thenPart.bytes, Then(c, thenPart));
      PatchJump(thenJump);
      c := Code(t.bytes + JumpOver(OP_JUMP_IF_FALSE, thenPart.bytes) + thenPart.bytes, a.consts,
                t.ok && a.ok && Fits16(|thenPart.bytes|));
      AddsFacts(x, Out(), c);
      y, d := Out(), OptStmtCode(els, scopeDepth, Scope(), constants);
      GenerateElse(els);
      AddsThen(x, y, Out(), c, d.(bytes := [OP_POP] + d.bytes), elsePart);
      ghost var pre := t.bytes + JumpOver(OP_JUMP_IF_FALSE, thenPart.bytes) + ([OP_POP] + a.bytes);
      PatchAdds(x, Out(), elseJump, pre, OP_JUMP, elsePart.bytes, Then(c, elsePart));
      PatchJump(elseJump);
    }

    /** The pop of the condition, the branch taken when it is true, and a jump still to be patched. */
    method GenerateThen(thn: Stmt) returns (elseJump: nat)
      requires Valid() && (errors == [] ==> Settled(Scope(), scopeDepth))
      modifies this, locals
      ensures Valid() && scopeDepth == old(scopeDepth) && elseJump + 2 == |code| && |old(code)| + 2 <= elseJump
      ensures var a := StmtCode(thn, scopeDepth, old(Scope()), old(constants));
              Emits(a.(bytes := [OP_POP] + a.bytes + [OP_JUMP, 255, 255]))
      ensures errors == [] ==> Scope() == old(Scope())
      decreases thn, 2
    {
      hide StmtCode;
      EmitByte(OP_POP);
      GenerateStmt(thn);
      elseJump := EmitJump(OP_JUMP);
    }

    /** The pop of the condition and the branch taken when it is false. */
    method GenerateElse(els: OptStmt)
      requires Valid() && (errors == [] ==> Settled(Scope(), scopeDepth))
      modifies this, locals
      ensures Valid() && scopeDepth == old(scopeDepth)
      ensures var b := OptStmtCode(els, scopeDepth, old(Scope()), old(constants));
              Emits(b.(bytes := [OP_POP] + b.bytes))
      ensures errors == [] ==> Scope() == old(Scope())
      decreases els, 0
    {
      hide StmtCode;
      EmitByte(OP_POP);
      if els.SomeStmt? {
        GenerateStmt(els.s);
      }
    }

    method GenerateWhile(test: Expr, body: Stmt)
      requires Valid() && (errors == [] ==> Settled(Scope(), scopeDepth))
      modifies this, locals
      ensures Valid() && scopeDepth == old(scopeDepth)
      ensures Emits(StmtCode(While(test, body), scopeDepth, old(Scope()), old(constants)))
      ensures errors == [] ==> Scope() == old(Scope())
      decreases While(test, body), 0
    {
      hide Valid, Scope, Settled, Adds, Patch, ExprCode, StmtCode, JumpAhead;
      WhileStep(test, body, scopeDepth, Scope(), constants);
      ghost var x, t := Out(), ExprCode(test, Scope(), constants);
      ghost var b := StmtCode(body, scopeDepth, Scope(), t.consts);
      ghost var back := |t.bytes| + |b.bytes| + 7;
      ghost var loop := Code([OP_POP] + b.bytes + JumpAhead(OP_LOOP, back), b.consts, b.ok && Fits16(back));
      var loopStart := |code|;
      GenerateExpr(test);
      AddsFacts(x, Out(), t);
      ghost var y, d := Out(), Code(Hole(OP_JUMP_IF_FALSE), constants, true);
      var exitJump := EmitJump(OP_JUMP_IF_FALSE);
      AddsThen(x, y, Out(), t, d, d.(consts := t.consts));
      ghost var c := Then(t, d.(consts := t.consts));
      y, d := Out(), StmtCode(body, scopeDepth, Scope(), constants);
      GenerateBody(body, loopStart);
      ghost var back' := |y.bytes| + |d.bytes| + 4 - loopStart;
      AddsThen(x, y, Out(), c,
               Code([OP_POP] + d.bytes + JumpAhead(OP_LOOP, back'), d.consts, d.ok && Fits16(back')), loop);
      PatchAdds(x, Out(), exitJump, t.bytes, OP_JUMP_IF_FALSE, loop.bytes, Then(c, loop));
      PatchJump(exitJump);
      c := Code(t.bytes + JumpOver(OP_JUMP_IF_FALSE, loop.bytes) + loop.bytes, b.consts,
                t.ok && loop.ok && Fits16(|loop.bytes|));
      AddsFacts(x, Out(), c);
      y, d := Out(), Code([OP_POP], constants, true);
      EmitByte(OP_POP);
      AddsThen(x, y, Out(), c, d, d.(consts := b.consts));
    }

    /** The body of a `while` loop between the pop of its condition and the jump back to it. */
    method GenerateBody(body: Stmt, loopStart: nat)
      requires Valid() && (errors == [] ==> Settled(Scope(), scopeDepth)) && loopStart <= |code|
      modifies this, locals
      ensures Valid() && scopeDepth == old(scopeDepth)
      ensures var b := StmtCode(body, scopeDepth, old(Scope()), old(constants));
              var back := |old(code)| + |b.bytes| + 4 - loopStart;
              Emits(Code([OP_POP] + b.bytes + JumpAhead(OP_LOOP, back), b.consts, b.ok && Fits16(back)))
      ensures errors == [] ==> Scope() == old(Scope())
      decreases body, 2
    {
      hide StmtCode, JumpAhead;
      EmitByte(OP_POP);
      GenerateStmt(body);
      EmitLoop(loopStart);
    }

    method GenerateFor(init: Decls, cond: OptExpr, step: OptExpr, body: Stmt)
      requires Valid() && (errors == [] ==> Settled(Scope(), scopeDepth))
      modifies this, locals
      ensures Valid() && scopeDepth == old(scopeDepth)
      ensures Emits(StmtCode(For(init, cond, step, body), scopeDepth, old(Scope()), old(constants)))
      ensures errors == [] ==> Scope() == old(Scope())
      decreases For(init, cond, step, body), 0
    {
      hide Valid, Scope, Settled, Opened, PopCode, DeclsCode, DeclsScope, ForLoop, StmtCode;
      ForStep(init, cond, step, body, scopeDepth, Scope(), constants);
      BeginScope();
      if errors == [] {
        DeclsScopeOpened(init, scopeDepth, Scope());
      }
      Generate(init);
      GenerateLoop(cond, step, body);
      EndScope(old(Scope()));
    }

    method GenerateLoop(cond: OptExpr, step: OptExpr, body: Stmt)
      requires Valid() && (errors == [] ==> Settled(Scope(), scopeDepth))
      modifies this, locals
      ensures Valid() && scopeDepth == old(scopeDepth)
      ensures Emits(ForLoop(cond, step, body, scopeDepth, old(Scope()), old(constants)))
      ensures errors == [] ==> Scope() == old(Scope())
      decreases body, 3
    {
      hide Valid, Scope, Settled, Adds, Patch, ExprCode, StmtCode, RoundsCode, JumpAhead;
      ghost var x, t := Out(), OptExprCode(cond, Scope(), constants);
      ghost var u := OptExprCode(step, Scope(), t.consts);
      ghost var b := StmtCode(body, scopeDepth, Scope(), u.consts);
      var loopStart := |code|;
      if cond.NoExpr? {
        GenerateRounds(step, body, loopStart);
      } else {
        ghost var rounds := RoundsCode(step.SomeExpr?, u, b, |t.bytes| + 4);
        ghost var rest := rounds.(bytes := [OP_POP] + rounds.bytes);
        ghost var c := t.(bytes := t.bytes + Hole(OP_JUMP_IF_FALSE) + [OP_POP]);
        var exitJump := GenerateCondition(cond.e);
        AddsFacts(x, Out(), c);
        ghost var u' := OptExprCode(step, Scope(), constants);
        ghost var b' := StmtCode(body, scopeDepth, Scope(), u'.consts);
        ghost var y, d := Out(), RoundsCode(step.SomeExpr?, u', b', |code| - loopStart);
        GenerateRounds(step, body, loopStart);
        AddsThen(x, y, Out(), c, d, rounds);
        assert Then(c, rounds).bytes == t.bytes + Hole(OP_JUMP_IF_FALSE) + rest.bytes;
        PatchAdds(x, Out(), exitJump, t.bytes, OP_JUMP_IF_FALSE, rest.bytes, Then(c, rounds));
        PatchJump(exitJump);
        c := Code(t.bytes + JumpOver(OP_JUMP_IF_FALSE, rest.bytes) + rest.bytes, rounds.consts,
                  t.ok && rounds.ok && Fits16(|rest.bytes|));
        AddsFacts(x, Out(), c);
        y, d := Out(), Code([OP_POP], constants, true);
        EmitByte(OP_POP);
        AddsThen(x, y, Out(), c, d, d.(consts := rounds.consts));
      }
    }

    /** The condition of a `for` loop, a jump out still to be patched, and the pop of its value. */
    method GenerateCondition(cond: Expr) returns (exitJump: nat)
      requires Valid()
      modifies `code, `constants, `errors, `panicMode
      ensures Valid()
      ensures var t := ExprCode(cond, Scope(), old(constants));
              && Emits(t.(bytes := t.bytes + Hole(OP_JUMP_IF_FALSE) + [OP_POP]))
              && exitJump + 2 <= |code| && (errors == [] ==> exitJump == |old(code)| + |t.bytes| + 1)
    {
      hide Valid, Scope, Adds, ExprCode;
      ghost var x, t := Out(), ExprCode(cond, Scope(), constants);
      GenerateExpr(cond);
      AddsFacts(x, Out(), t);
      ghost var y, d := Out(), Code(Hole(OP_JUMP_IF_FALSE), constants, true);
      exitJump := EmitJump(OP_JUMP_IF_FALSE);
      AddsThen(x, y, Out(), t, d, d.(consts := t.consts));
      ghost var c := Then(t, d.(consts := t.consts));
      y, d := Out(), Code([OP_POP], constants, true);
      EmitByte(OP_POP);
      AddsThen(x, y, Out(), c, d, d.(consts := t.consts));
    }

    /** The step, the body, and the jump back to whichever of them comes next. */
    method GenerateRounds(step: OptExpr, body: Stmt, loopStart: nat)
      requires Valid() && (errors == [] ==> Settled(Scope(), scopeDepth)) && loopStart <= |code|
      modifies this, locals
      ensures Valid() && scopeDepth == old(scopeDepth)
      ensures var u := OptExprCode(step, old(Scope()), old(constants));
              var b := StmtCode(body, scopeDepth, old(Scope()), u.consts);
              Emits(RoundsCode(step.SomeExpr?, u, b, |old(code)| - loopStart))
      ensures errors == [] ==> Scope() == old(Scope())
      decreases body, 2
    {
      hide Valid, Scope, OptExprCode, StmtCode, StepCode, JumpAhead, Settled;
      ghost var u := OptExprCode(step, Scope(), constants);
      StepLength(step.SomeExpr?, u, |code| - loopStart);
      var start := GenerateStep(step, loopStart);
      GenerateStmt(body);
      EmitLoop(start);
    }

    /** The jump over the step, the step, and the jump back to the condition; where the body is to
        jump back to. */
    method GenerateStep(step: OptExpr, loopStart: nat) returns (start: nat)
      requires Valid() && loopStart <= |code|
      modifies `code, `constants, `errors, `panicMode
      ensures Valid() && start <= |code|
      ensures start == if step.SomeExpr? then |old(code)| + 3 else loopStart
      ensures var u := OptExprCode(step, Scope(), old(constants));
              var back := |old(code)| - loopStart;
              Emits(StepCode(step.SomeExpr?, u, back))
    {
      hide Valid, Scope, ExprCode, JumpAhead, Patch;
      if step.NoExpr? {
        return loopStart;
      }
      ghost var x, u := Out(), ExprCode(step.e, Scope(), constants);
      ghost var back := |code| - loopStart + |u.bytes| + 7;
      ghost var body := u.bytes + [OP_POP] + JumpAhead(OP_LOOP, back);
      var bodyJump := EmitJump(OP_JUMP);
      start := |code|;
      GenerateExpr(step.e);
      EmitByte(OP_POP);
      EmitLoop(loopStart);
      ghost var c := Code(Hole(OP_JUMP) + body, u.consts, u.ok && Fits16(back));
      assert Adds(x, Out(), c);
      assert c.bytes == [] + Hole(OP_JUMP) + body;
      PatchAdds(x, Out(), bodyJump, [], OP_JUMP, body, c);
      JumpLength(OP_LOOP, back);
      PatchJump(bodyJump);
      assert [] + JumpOver(OP_JUMP, body) == JumpOver(OP_JUMP, body);
    }
  }

  /** `compile`: the function, or nothing when an error was reported. */
  method Compile(script: Decls) returns (r: Option<Program>)
    ensures r == if ScriptCode(script).ok then Some(Compiled(script)) else None
  {
    hide DeclsCode, DeclsScope;
    var compiler := new Compiler();
    assert compiler.Scope() == [Local("this", 0)];
    ghost var x, c := compiler.Out(), DeclsCode(script, 0, [Local("this", 0)], []);
    compiler.Generate(script);
    assert Adds(x, compiler.Out(), c);
    assert compiler.errors == [] ==> compiler.code == c.bytes && compiler.constants == c.consts;
    var failed := compiler.errors != [];
    compiler.EmitBytes(OP_NIL, OP_RETURN);
    r := if failed then None else Some(Program(compiler.code, compiler.constants));
  }

  lemma RestStep(ops: Operations, scope: Scope, k: seq<Const>)
    requires !ops.End?
    ensures var c := OperationCode(ops, scope, k);
            RestCode(ops, scope, k) == Then(c, RestCode(ops.rest, scope, c.consts))
  {
  }

  lemma RestEnd(scope: Scope, k: seq<Const>)
    ensures RestCode(End, scope, k) == Code([], k, true)
  {
  }

  lemma DeclsStep(ds: Decls, depth: nat, scope: Scope, k: seq<Const>)
    requires ds.Cons?
    ensures var c := DeclCode(ds.head, depth, scope, k);
            DeclsCode(ds, depth, scope, k) == Then(c, DeclsCode(ds.tail, depth, DeclScope(ds.head, depth, scope), c.consts))
    ensures DeclsScope(ds, depth, scope) == DeclsScope(ds.tail, depth, DeclScope(ds.head, depth, scope))
  {
  }

  lemma DeclsEnd(depth: nat, scope: Scope, k: seq<Const>)
    ensures DeclsCode(Nil, depth, scope, k) == Code([], k, true) && DeclsScope(Nil, depth, scope) == scope
  {
  }

  lemma PopNone(x: Code)
    ensures Adds(x, x, Code(PopCode(0), x.consts, true))
  {
  }

  lemma PopMore(x: Code, y: Code, z: Code, n: nat)
    requires Adds(x, y, Code(PopCode(n), y.consts, true)) && z == Code(y.bytes + [OP_POP], y.consts, y.ok)
    ensures Adds(x, z, Code(PopCode(n + 1), z.consts, true))
  {
    assert PopCode(n + 1) == PopCode(n) + [OP_POP];
  }

  lemma ThenAssoc(a: Code, b: Code, c: Code)
    ensures Then(a, Then(b, c)) == Then(Then(a, b), c)
  {
  }

  lemma ThenNothing(a: Code)
    ensures Then(a, Code([], a.consts, true)) == a
  {
  }

  lemma DeclSettled(d: Decl, depth: nat, scope: Scope)
    requires Settled(scope, depth)
    ensures Settled(DeclScope(d, depth, scope), depth)
  {
  }

  /** The code of an `if`, as it is put together. */
  lemma IfShape(t: Code, a: Code, b: Code)
    ensures var thenPart := [OP_POP] + a.bytes + Hole(OP_JUMP);
            var elsePart := [OP_POP] + b.bytes;
            var pre := t.bytes + JumpOver(OP_JUMP_IF_FALSE, thenPart) + ([OP_POP] + a.bytes);
            && t.bytes + JumpOver(OP_JUMP_IF_FALSE, thenPart) + thenPart + elsePart == pre + Hole(OP_JUMP) + elsePart
            && IfCode(t, a, b) ==
               Code(pre + JumpOver(OP_JUMP, elsePart) + elsePart, b.consts,
                    t.ok && a.ok && b.ok && Fits16(|thenPart|) && Fits16(|elsePart|))
  {
  }

  lemma IfStep(test: Expr, thn: Stmt, els: OptStmt, depth: nat, scope: Scope, k: seq<Const>)
    ensures var t := ExprCode(test, scope, k);
            var a := StmtCode(thn, depth, scope, t.consts);
            StmtCode(If(test, thn, els), depth, scope, k) == IfCode(t, a, OptStmtCode(els, depth, scope, a.consts))
    ensures els.NoStmt? ==> forall k' :: OptStmtCode(els, depth, scope, k') == Code([], k', true)
    ensures els.SomeStmt? ==> forall k' :: OptStmtCode(els, depth, scope, k') == StmtCode(els.s, depth, scope, k')
  {
  }

  lemma WhileStep(test: Expr, body: Stmt, depth: nat, scope: Scope, k: seq<Const>)
    ensures var t := ExprCode(test, scope, k);
            StmtCode(While(test, body), depth, scope, k) == WhileCode(t, StmtCode(body, depth, scope, t.consts))
  {
  }

  lemma ForStep(init: Decls, cond: OptExpr, step: OptExpr, body: Stmt, depth: nat, scope: Scope, k: seq<Const>)
    ensures var i := DeclsCode(init, depth + 1, scope, k);
            var inner := DeclsScope(init, depth + 1, scope);
            var loop := ForLoop(cond, step, body, depth + 1, inner, i.consts);
            StmtCode(For(init, cond, step, body), depth, scope, k) ==
            Code(i.bytes + loop.bytes + PopCode(|inner| - |scope|), loop.consts, i.ok && loop.ok)
  {
  }
}
