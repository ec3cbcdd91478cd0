/** The byte code of each construct, byte for byte, with the numbers that the interpreter's opcodes have. */
module CodeLaws {
  import opened Language
  import opened Bytecode
  import opened Codegen

  /** A jump instruction: its distance has two bytes, the high one first. */
  predicate IsJump(s: seq<Byte>, op: nat, distance: nat) {
    |s| == 3 && s[0] == op && 256 * (s[1] as nat) + (s[2] as nat) == distance
  }

  lemma JumpsAre(op: Byte, distance: nat)
    requires distance < 65536
    ensures IsJump(JumpAhead(op, distance), op, distance)
  {
  }

  // ---- literals, variables, operators ----

  /** Numbers of one, two and three bytes are in the code, low byte first; larger ones are constants. */
  lemma NumberBytes(a: Byte, b: Byte, c: Byte, k: seq<Const>)
    ensures NumberCode(a, k) == Code([49, a], k, true)
    ensures a > 0 ==> NumberCode(-(a as int), k) == Code([52, a], k, true)
    ensures var n: int := a + 256 * b;
            b > 0 ==> NumberCode(n, k) == Code([50, a, b], k, true) && NumberCode(-n, k) == Code([53, a, b], k, true)
    ensures var n: int := a + 256 * b + 65536 * c;
            c > 0 ==> NumberCode(n, k) == Code([51, a, b, c], k, true) && NumberCode(-n, k) == Code([54, a, b, c], k, true)
  {
    ThreeBytes(a, b, c);
    ThreeBytes(a, b, 0);
  }

  lemma ThreeBytes(a: Byte, b: Byte, c: Byte)
    ensures var n: nat := a + 256 * b + 65536 * c; Low(n) == a && Low(n / 256) == b && Low(n / 65536) == c
  {
    var n: nat := a + 256 * b + 65536 * c;
    assert n == a + 256 * (b + 256 * c);
    assert n / 256 == b + 256 * c && n / 65536 == c;
  }

  lemma LargeNumbers(n: int, k: seq<Const>)
    requires n >= 16777216 || n <= -16777216
    ensures var c := NumberCode(n, k);
            && (c.ok <==> (exists i :: 0 <= i < |k| && i < 256 && k[i] == IntConst(n)) || |k| < 256)
            && (c.ok ==> |c.bytes| == 2 && c.bytes[0] == 0 && c.bytes[1] < |c.consts| && c.consts[c.bytes[1]] == IntConst(n))
  {
  }

  lemma LiteralBytes(scope: Scope, k: seq<Const>)
    ensures OperandCode(NilLiteral, scope, k) == Code([1], k, true)
    ensures OperandCode(True, scope, k) == Code([2], k, true) && OperandCode(False, scope, k) == Code([3], k, true)
  {
  }

  /** A local has its slot after the opcode. */
  lemma LocalBytes(scope: Scope, name: string, k: seq<Const>, i: Byte, value: Expr)
    requires name != "this" && i < |scope| && scope[i].name == name && scope[i].depth != -1
    requires forall j :: i < j < |scope| ==> scope[j].name != name
    ensures OperandCode(Variable(name), scope, k) == Code([6, i], k, true)
    ensures var v := ExprCode(value, scope, k);
            OperandCode(Assign(name, value), scope, k) == v.(bytes := v.bytes + [62, 7, i])
  {
    hide ExprCode;
    assert Resolve(scope, name) == i;
  }

  /** A global has the index of its name, which is in the table before the value that is assigned. */
  lemma GlobalBytes(scope: Scope, name: string, k: seq<Const>, value: Expr)
    requires name != "this" && |k| < 256 && forall j :: 0 <= j < |scope| ==> scope[j].name != name
    ensures var c := OperandCode(Variable(name), scope, k);
            c.ok && |c.bytes| == 2 && c.bytes[0] == 8 && c.bytes[1] < |c.consts| && c.consts[c.bytes[1]] == NameConst(name)
    ensures var i := ConstIndex(k, NameConst(name));
            var v := ExprCode(value, scope, if i < |k| then k else k + [NameConst(name)]);
            OperandCode(Assign(name, value), scope, k) == v.(bytes := v.bytes + [62, 10, i])
  {
    hide ExprCode;
    assert Resolve(scope, name) == -1;
  }

  /** An operator comes after its operands; three of them are the negation of another. */
  lemma OperatorBytes(e: Expr, scope: Scope, k: seq<Const>)
    ensures var c := ExprCode(e, scope, k);
            && OperandCode(Unary(Not, e), scope, k) == c.(bytes := c.bytes + [30])
            && OperandCode(Unary(Negate, e), scope, k) == c.(bytes := c.bytes + [31])
            && forall op :: OperationCode(Binary(op, e, End), scope, k)
                            == c.(bytes := c.bytes + match op
                                                     case Equal => [17]
                                                     case NotEqual => [17, 30]
                                                     case Greater => [18]
                                                     case LessEqual => [18, 30]
                                                     case Less => [19]
                                                     case GreaterEqual => [19, 30]
                                                     case Add => [22]
                                                     case Subtract => [23]
                                                     case Modulo => [27]
                                                     case Multiply => [28]
                                                     case Divide => [29])
  {
    hide ExprCode;
  }

  /** `and` jumps over its right operand, `or` over a jump over it. */
  lemma AndOrBytes(e: Expr, scope: Scope, k: seq<Const>)
    ensures var c, a := ExprCode(e, scope, k), OperationCode(And(e, End), scope, k);
            && (a.ok <==> c.ok && |c.bytes| < 65535)
            && (a.ok ==> |a.bytes| == 4 + |c.bytes| && IsJump(a.bytes[..3], 35, 1 + |c.bytes|) && a.bytes[3..] == [4] + c.bytes)
    ensures var c, o := ExprCode(e, scope, k), OperationCode(Or(e, End), scope, k);
            && (o.ok <==> c.ok && |c.bytes| < 65535)
            && (o.ok ==> |o.bytes| == 7 + |c.bytes| && IsJump(o.bytes[..3], 35, 3) && IsJump(o.bytes[3..6], 34, 1 + |c.bytes|)
                         && o.bytes[6..] == [4] + c.bytes)
  {
    hide ExprCode;
  }

  // ---- statements ----

  lemma SimpleBytes(e: Expr, depth: nat, scope: Scope, k: seq<Const>)
    ensures var c := ExprCode(e, scope, k);
            && StmtCode(Expression(e), depth, scope, k) == c.(bytes := c.bytes + [4])
            && StmtCode(Print(e), depth, scope, k) == c.(bytes := c.bytes + [32])
  {
    hide ExprCode;
  }

  /** A variable is a new cell, which its initialiser is stored into; a global then takes it from the stack. */
  lemma DeclarationBytes(name: string, e: Expr, depth: nat, scope: Scope, k: seq<Const>)
    requires |k| < 256
    ensures var c := DeclCode(Var(name, NoExpr), 0, scope, k);
            && c.ok && |c.bytes| == 4 && c.bytes[..3] == [1, 58, 9]
            && c.bytes[3] < |c.consts| && c.consts[c.bytes[3]] == NameConst(name)
    ensures var i := ConstIndex(k, NameConst(name));
            var c := ExprCode(e, scope, if i < |k| then k else k + [NameConst(name)]);
            DeclCode(Var(name, SomeExpr(e)), 0, scope, k) == c.(bytes := [1, 58] + c.bytes + [62, 11] + [9, i])
    ensures depth > 0 ==> DeclCode(Var(name, NoExpr), depth, scope, k).bytes == [1, 58]
    ensures depth > 0 ==>
              var c := ExprCode(e, scope + [Local(name, -1)], k);
              DeclCode(Var(name, SomeExpr(e)), depth, scope, k).bytes == [1, 58] + c.bytes + [62, 11]
  {
    hide ExprCode;
  }

  /** A block ends with a pop for each of its variables. */
  lemma {:induction false} BlockBytes(decls: Decls, depth: nat, scope: Scope, k: seq<Const>)
    ensures var c, b := DeclsCode(decls, depth + 1, scope, k), StmtCode(Block(decls), depth, scope, k);
            && b == c.(bytes := b.bytes) && |b.bytes| == |c.bytes| + VarCount(decls) && c.bytes <= b.bytes
            && forall i :: |c.bytes| <= i < |b.bytes| ==> b.bytes[i] == 4
  {
    hide DeclsCode;
    ScopeGrows(decls, depth + 1, scope);
  }

  function VarCount(decls: Decls): nat {
    match decls
    case Nil => 0
    case Cons(d, rest) => (if d.Var? then 1 else 0) + VarCount(rest)
  }

  lemma {:induction false} ScopeGrows(decls: Decls, depth: nat, scope: Scope)
    requires depth > 0
    ensures |DeclsScope(decls, depth, scope)| == |scope| + VarCount(decls)
  {
    if decls.Cons? {
      ScopeGrows(decls.tail, depth, DeclScope(decls.head, depth, scope));
    }
  }

  /** `if`: the condition, a jump to the else branch, a pop and the branch, a jump to the end, and a pop and the
      else branch. */
  lemma IfBytes(test: Expr, thn: Stmt, els: OptStmt, depth: nat, scope: Scope, k: seq<Const>)
    returns (toElse: seq<Byte>, toEnd: seq<Byte>)
    requires StmtCode(If(test, thn, els), depth, scope, k).ok
    ensures var t := ExprCode(test, scope, k);
            var a := StmtCode(thn, depth, scope, t.consts);
            var b := if els.SomeStmt? then StmtCode(els.s, depth, scope, a.consts).bytes else [];
            && IsJump(toElse, 35, 4 + |a.bytes|) && IsJump(toEnd, 34, 1 + |b|)
            && StmtCode(If(test, thn, els), depth, scope, k).bytes == t.bytes + toElse + [4] + a.bytes + toEnd + [4] + b
  {
    hide ExprCode;
    var t := ExprCode(test, scope, k);
    var a := StmtCode(thn, depth, scope, t.consts);
    var b := OptStmtCode(els, depth, scope, a.consts);
    toElse, toEnd := IfPieces(t, a, b);
  }

  lemma IfPieces(t: Code, a: Code, b: Code) returns (toElse: seq<Byte>, toEnd: seq<Byte>)
    requires IfCode(t, a, b).ok
    ensures IsJump(toElse, 35, 4 + |a.bytes|) && IsJump(toEnd, 34, 1 + |b.bytes|)
    ensures IfCode(t, a, b).bytes == t.bytes + toElse + [4] + a.bytes + toEnd + [4] + b.bytes
  {
    hide JumpAhead, IsJump;
    JumpLength(34, 1 + |b.bytes|);
    toElse, toEnd := JumpAhead(35, 4 + |a.bytes|), JumpAhead(34, 1 + |b.bytes|);
    JumpsAre(35, 4 + |a.bytes|);
    JumpsAre(34, 1 + |b.bytes|);
  }

  /** `while`: the condition, a jump to the end, a pop, the body, a jump back to the condition, and a pop. */
  lemma WhileBytes(test: Expr, body: Stmt, depth: nat, scope: Scope, k: seq<Const>)
    returns (toEnd: seq<Byte>, back: seq<Byte>)
    requires StmtCode(While(test, body), depth, scope, k).ok
    ensures var t := ExprCode(test, scope, k);
            var b := StmtCode(body, depth, scope, t.consts).bytes;
            && IsJump(toEnd, 35, 4 + |b|) && IsJump(back, 36, |t.bytes| + 3 + 1 + |b| + 3)
            && StmtCode(While(test, body), depth, scope, k).bytes == t.bytes + toEnd + [4] + b + back + [4]
  {
    hide ExprCode, JumpAhead, IsJump;
    var t := ExprCode(test, scope, k);
    var b := StmtCode(body, depth, scope, t.consts);
    var n := |t.bytes| + |b.bytes| + 7;
    JumpLength(36, n);
    toEnd, back := JumpAhead(35, 4 + |b.bytes|), JumpAhead(36, n);
    JumpsAre(35, 4 + |b.bytes|);
    JumpsAre(36, n);
    assert WhileCode(t, b).bytes == t.bytes + toEnd + [4] + b.bytes + back + [4];
  }

  /** The rounds of a `for`: the condition, a jump to the end, a pop, a jump to the body, the step, a pop, a jump
      back to the condition, the body, a jump back to the step, and a pop. */
  lemma ForBytes(t: Code, u: Code, b: Code)
    returns (toEnd: seq<Byte>, toBody: seq<Byte>, back: seq<Byte>, toStep: seq<Byte>)
    requires LoopCode(true, true, t, u, b).ok
    ensures IsJump(toBody, 34, |u.bytes| + 1 + 3) && IsJump(back, 36, |t.bytes| + 3 + 1 + 3 + |u.bytes| + 1 + 3)
    ensures IsJump(toStep, 36, |u.bytes| + 1 + 3 + |b.bytes| + 3)
    ensures IsJump(toEnd, 35, 1 + 3 + |u.bytes| + 1 + 3 + |b.bytes| + 3)
    ensures LoopCode(true, true, t, u, b).bytes
            == t.bytes + toEnd + [4] + toBody + u.bytes + [4] + back + b.bytes + toStep + [4]
  {
    hide JumpAhead, IsJump;
    var o, c := t.bytes, LoopCode(true, true, t, u, b);
    var m := |o| + 4 + |u.bytes| + 7;
    JumpLength(36, m);
    JumpLength(34, |u.bytes| + 4);
    JumpLength(36, |u.bytes| + 4 + |b.bytes| + 3);
    toBody, back := JumpAhead(34, |u.bytes| + 4), JumpAhead(36, m);
    toStep := JumpAhead(36, |u.bytes| + 4 + |b.bytes| + 3);
    toEnd := JumpAhead(35, |u.bytes| + |b.bytes| + 11);
    var rounds := RoundsCode(true, u, b, |o| + 4);
    assert StepCode(true, u, |o| + 4).bytes == toBody + (u.bytes + [4] + back);
    assert rounds.bytes == toBody + (u.bytes + [4] + back) + b.bytes + toStep;
    assert |rounds.bytes| == |u.bytes| + |b.bytes| + 10;
    JumpsAre(34, |u.bytes| + 4);
    JumpsAre(36, m);
    JumpsAre(36, |u.bytes| + 4 + |b.bytes| + 3);
    JumpsAre(35, |rounds.bytes| + 1);
    assert c.bytes == o + toEnd + ([4] + rounds.bytes) + [4];
  }

  /** A script returns nil at its end. */
  lemma ScriptBytes(script: Decls)
    ensures var c := DeclsCode(script, 0, [Local("this", 0)], []);
            ScriptCode(script) == c.(bytes := c.bytes + [1, 42])
  {
  }
}
