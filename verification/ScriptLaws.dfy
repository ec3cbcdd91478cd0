/** What scripts print, run from their byte code: laws that anybody could check against the language's
    description, for all literals and numbers in them. */
module ScriptLaws {
  import opened Language
  import opened Bytecode
  import opened Codegen
  import opened CompilerCorrect
  import opened Acceptance
  import BigIntDiv
  import Digits
  import Script

  /** From some round on the machine is in this state. */
  ghost predicate Comes(script: Decls, end: Machine) {
    ScriptCode(script).ok && exists rounds: nat :: Stays(script, rounds, end)
  }

  ghost predicate Stays(script: Decls, rounds: nat, end: Machine) {
    forall n: nat :: n >= rounds ==> Run(Compiled(script), Start(), n) == end
  }

  /** The script compiles, and its byte code prints this and comes to its end. */
  ghost predicate Shows(script: Decls, out: seq<Value>) {
    exists globals :: Comes(script, Done(globals, out))
  }

  /** The script compiles, and its byte code prints this and fails. */
  ghost predicate Fails(script: Decls, out: seq<Value>) {
    Comes(script, Failed(out))
  }

  // ---- writing scripts ----

  function Lit(o: Operand): Expr {
    Expr(o, End)
  }

  function Chain(a: Operand, op: BinaryOp, b: Operand): Expr {
    Expr(a, Binary(op, Lit(b), End))
  }

  function Printing(e: Expr): Decl {
    Statement(Print(e))
  }

  function Only(d: Decl): Decls {
    Cons(d, Nil)
  }

  function Two(a: Decl, b: Decl): Decls {
    Cons(a, Only(b))
  }

  function Three(a: Decl, b: Decl, c: Decl): Decls {
    Cons(a, Two(b, c))
  }

  function NewStore(): Store {
    Store([Binding("this", Language.Script)], map[])
  }

  /** From what a script means to what its byte code shows. */
  lemma ComesToItsEnd(script: Decls, fuel: nat, r: Outcome)
    requires DeclsScoped(script, false, {}) && DeclsSize(script) <= 255
    requires ExecDecls(script, 0, NewStore(), [], fuel) == r && !r.Timeout?
    ensures r.Normal? ==> Shows(script, r.out)
    ensures r.Error? ==> Fails(script, r.out)
  {
    hide ScriptCode, ExecDecls, Run, Compiled, DeclsScoped, DeclsSize;
    assert Meaning(script, fuel) == r;
    Compiles(script);
    var rounds := Script.EnoughRounds(script, fuel);
    assert Stays(script, rounds, Final(r));
  }

  predicate Literal(o: Operand) {
    o.Number? || o.True? || o.False? || o.NilLiteral?
  }

  function ValueOf(o: Operand): Value
    requires Literal(o)
  {
    match o
    case Number(n) => Int(n)
    case True => Bool(true)
    case False => Bool(false)
    case NilLiteral => NilVal
  }

  // ---- evaluating them ----

  lemma LitEval(o: Operand, st: Store)
    ensures Eval(Lit(o), st) == EvalOperand(o, st)
    ensures Literal(o) ==> EvalOperand(o, st) == Ok(ValueOf(o), st)
  {
    var r := EvalOperand(o, st);
    if r.Ok? {
      assert EvalRest(End, r.value, r.store) == r;
    }
  }

  lemma ChainEval(a: Operand, op: BinaryOp, b: Operand, st: Store, x: Value, y: Value)
    requires EvalOperand(a, st) == Ok(x, st) && EvalOperand(b, st) == Ok(y, st)
    ensures Eval(Chain(a, op, b), st) == match Apply(op, x, y) case None => Failure case Some(v) => Ok(v, st)
  {
    hide Apply, EvalOperand;
    LitEval(b, st);
    if Apply(op, x, y).Some? {
      assert EvalRest(End, Apply(op, x, y).value, st) == Ok(Apply(op, x, y).value, st);
    }
  }

  lemma LastMeans(d: Decl, depth: nat, st: Store, out: seq<Value>, fuel: nat)
    ensures ExecDecls(Only(d), depth, st, out, fuel) == ExecDecl(d, depth, st, out, fuel)
  {
    hide ExecDecl;
    var r := ExecDecl(d, depth, st, out, fuel);
    assert r.Normal? ==> ExecDecls(Nil, depth, r.store, r.out, fuel) == r;
  }

  lemma TwoMean(a: Decl, b: Decl, depth: nat, st: Store, out: seq<Value>, fuel: nat)
    ensures var r := ExecDecl(a, depth, st, out, fuel);
            ExecDecls(Two(a, b), depth, st, out, fuel)
            == if r.Normal? then ExecDecl(b, depth, r.store, r.out, fuel) else r
  {
    hide ExecDecl;
    var r := ExecDecl(a, depth, st, out, fuel);
    if r.Normal? {
      LastMeans(b, depth, r.store, r.out, fuel);
    }
  }

  lemma ThreeMean(a: Decl, b: Decl, c: Decl, depth: nat, st: Store, out: seq<Value>, fuel: nat)
    ensures var r := ExecDecl(a, depth, st, out, fuel);
            ExecDecls(Three(a, b, c), depth, st, out, fuel)
            == if r.Normal? then ExecDecls(Two(b, c), depth, r.store, r.out, fuel) else r
  {
    hide ExecDecl;
  }

  lemma TwoScoped(a: Decl, b: Decl, local: bool, here: set<string>)
    ensures DeclsScoped(Two(a, b), local, here) <==>
            DeclScoped(a, local, here) && DeclScoped(b, local, HereAfter(a, local, here))
    ensures DeclsSize(Two(a, b)) == DeclSize(a) + DeclSize(b)
  {
    hide DeclScoped, DeclSize;
    OneScoped(b, local, HereAfter(a, local, here));
  }

  lemma ThreeScoped(a: Decl, b: Decl, c: Decl, local: bool, here: set<string>)
    ensures DeclsScoped(Three(a, b, c), local, here) <==>
            DeclScoped(a, local, here) && DeclsScoped(Two(b, c), local, HereAfter(a, local, here))
    ensures DeclsSize(Three(a, b, c)) == DeclSize(a) + DeclsSize(Two(b, c))
  {
    hide DeclScoped, DeclSize;
  }

  /** A script that prints one expression. */
  lemma PrintMeans(e: Expr)
    requires ExprScoped(e, None) && ExprSize(e) <= 250
    ensures match Eval(e, NewStore())
            case Ok(v, _) => Shows(Only(Printing(e)), [v])
            case Failure => Fails(Only(Printing(e)), [])
  {
    hide Eval, ExprScoped, ExprSize;
    var script := Only(Printing(e));
    OneScoped(Printing(e), false, {});
    LastMeans(Printing(e), 0, NewStore(), [], 0);
    assert forall v: Value :: [] + [v] == [v];
    ComesToItsEnd(script, 0, ExecDecls(script, 0, NewStore(), [], 0));
  }

  lemma LitScoped(o: Operand, pending: Option<string>)
    ensures ExprScoped(Lit(o), pending) <==> OperandScoped(o, pending)
    ensures ExprSize(Lit(o)) == OperandSize(o)
    ensures Literal(o) ==> OperandScoped(o, pending) && OperandSize(o) == 1
  {
    assert RestScoped(End, pending) && RestSize(End) == 0;
  }

  lemma OneLinkScoped(o: Operand, ops: Operations, pending: Option<string>)
    requires !ops.End? && ops.rest == End
    ensures ExprScoped(Expr(o, ops), pending) <==> OperandScoped(o, pending) && ExprScoped(ops.rhs, pending)
    ensures ExprSize(Expr(o, ops)) == OperandSize(o) + 1 + ExprSize(ops.rhs)
  {
    assert RestScoped(End, pending) && RestSize(End) == 0;
  }

  lemma ChainScoped(a: Operand, op: BinaryOp, b: Operand, pending: Option<string>)
    requires OperandScoped(a, pending) && OperandScoped(b, pending)
    ensures ExprScoped(Chain(a, op, b), pending) && ExprSize(Chain(a, op, b)) == OperandSize(a) + OperandSize(b) + 1
  {
    LitScoped(b, pending);
    OneLinkScoped(a, Binary(op, Lit(b), End), pending);
  }

  lemma ChainShows(a: Operand, op: BinaryOp, b: Operand)
    requires Literal(a) && Literal(b)
    ensures match Apply(op, ValueOf(a), ValueOf(b))
            case Some(v) => Shows(Only(Printing(Chain(a, op, b))), [v])
            case None => Fails(Only(Printing(Chain(a, op, b))), [])
  {
    hide Apply, Eval, Shows, Fails;
    LitScoped(a, None);
    LitScoped(b, None);
    ChainScoped(a, op, b, None);
    LitEval(a, NewStore());
    LitEval(b, NewStore());
    ChainEval(a, op, b, NewStore(), ValueOf(a), ValueOf(b));
    PrintMeans(Chain(a, op, b));
  }

  // ---- operators ----

  /** `==` between any two literals prints true exactly when they are the same, `!=` exactly when they are not. */
  lemma SameLiterals(a: Operand, b: Operand)
    requires Literal(a) && Literal(b)
    ensures Shows(Only(Printing(Chain(a, Equal, b))), [Bool(a == b)])
    ensures Shows(Only(Printing(Chain(a, NotEqual, b))), [Bool(a != b)])
  {
    hide Shows;
    ChainShows(a, Equal, b);
    ChainShows(a, NotEqual, b);
  }

  /** The other operators want numbers. */
  lemma OnlyNumbers(a: Operand, op: BinaryOp, b: Operand)
    requires Literal(a) && Literal(b) && op != Equal && op != NotEqual && !(a.Number? && b.Number?)
    ensures Fails(Only(Printing(Chain(a, op, b))), [])
  {
    hide Fails;
    ChainShows(a, op, b);
  }

  lemma Comparisons(a: int, b: int)
    ensures Shows(Only(Printing(Chain(Number(a), Less, Number(b)))), [Bool(a < b)])
    ensures Shows(Only(Printing(Chain(Number(a), LessEqual, Number(b)))), [Bool(a <= b)])
    ensures Shows(Only(Printing(Chain(Number(a), Greater, Number(b)))), [Bool(a > b)])
    ensures Shows(Only(Printing(Chain(Number(a), GreaterEqual, Number(b)))), [Bool(a >= b)])
  {
    hide Shows;
    ChainShows(Number(a), Less, Number(b));
    ChainShows(Number(a), LessEqual, Number(b));
    ChainShows(Number(a), Greater, Number(b));
    ChainShows(Number(a), GreaterEqual, Number(b));
  }

  lemma SumsAndProducts(a: int, b: int)
    ensures Shows(Only(Printing(Chain(Number(a), Add, Number(b)))), [Int(a + b)])
    ensures Shows(Only(Printing(Chain(Number(a), Subtract, Number(b)))), [Int(a - b)])
    ensures Shows(Only(Printing(Chain(Number(a), Multiply, Number(b)))), [Int(a * b)])
  {
    hide Shows;
    ChainShows(Number(a), Add, Number(b));
    ChainShows(Number(a), Subtract, Number(b));
    ChainShows(Number(a), Multiply, Number(b));
  }

  /** Division by zero fails; otherwise `q` is rounded towards zero and `r`, where the signs differ, has the
      denominator added. */
  lemma Quotients(a: int, b: int, q: nat, r: nat)
    requires b == 0 || (BigIntDiv.Magnitude(a) == BigIntDiv.Magnitude(b) * q + r && r < BigIntDiv.Magnitude(b))
    ensures var over, rest := Only(Printing(Chain(Number(a), Divide, Number(b)))),
                              Only(Printing(Chain(Number(a), Modulo, Number(b))));
            if b == 0 then Fails(over, []) && Fails(rest, [])
            else
              var differ := (a < 0 && b > 0) || (a > 0 && b < 0);
              && Shows(over, [Int(if differ then -(q as int) else q)])
              && Shows(rest, [Int((if a < 0 then -(r as int) else r) + if differ then b else 0)])
  {
    hide Shows, Fails, BigIntDiv.TruncDiv, BigIntDiv.YargRem;
    ChainShows(Number(a), Divide, Number(b));
    ChainShows(Number(a), Modulo, Number(b));
    if b != 0 {
      BigIntDiv.SignedDivision(a, b);
      Digits.QuotientUnique(BigIntDiv.Magnitude(a), BigIntDiv.Magnitude(b), q, r);
    }
  }

  /** Operators of a chain are applied from the left; parentheses come first. */
  lemma Grouped(a: int, b: int, c: int)
    ensures Shows(Only(Printing(Expr(Number(a), Binary(Subtract, Lit(Number(b)), Binary(Subtract, Lit(Number(c)), End))))),
                  [Int(a - b - c)])
    ensures Shows(Only(Printing(Expr(Number(a), Binary(Subtract, Lit(Grouping(Chain(Number(b), Subtract, Number(c)))), End)))),
                  [Int(a - (b - c))])
  {
    hide Shows;
    var st := NewStore();
    LitEval(Number(b), st);
    LitEval(Number(c), st);
    var rest := Binary(Subtract, Lit(Number(c)), End);
    assert EvalRest(rest, Int(a - b), st) == Ok(Int(a - b - c), st);
    var left := Expr(Number(a), Binary(Subtract, Lit(Number(b)), rest));
    assert Eval(left, st) == Ok(Int(a - b - c), st);
    var inner := Grouping(Chain(Number(b), Subtract, Number(c)));
    ChainEval(Number(b), Subtract, Number(c), st, Int(b), Int(c));
    LitEval(inner, st);
    assert EvalRest(End, Int(a - (b - c)), st) == Ok(Int(a - (b - c)), st);
    var right := Expr(Number(a), Binary(Subtract, Lit(inner), End));
    assert Eval(right, st) == Ok(Int(a - (b - c)), st);
    LitScoped(Number(b), None);
    OneLinkScoped(Number(b), rest, None);
    assert RestScoped(left.rest, None) && RestSize(left.rest) == 4;
    ChainScoped(Number(b), Subtract, Number(c), None);
    ChainScoped(Number(a), Subtract, inner, None);
    PrintMeans(left);
    PrintMeans(right);
  }

  // ---- what counts as false ----

  predicate IsFalse(o: Operand) {
    o == NilLiteral || o == False
  }

  /** `!` prints true exactly for `nil` and `false`; `-` negates a number and fails on anything else. */
  lemma UnaryOperators(a: Operand)
    requires Literal(a)
    ensures Shows(Only(Printing(Lit(Unary(Not, Lit(a))))), [Bool(IsFalse(a))])
    ensures var minus := Only(Printing(Lit(Unary(Negate, Lit(a)))));
            if a.Number? then Shows(minus, [Int(-a.n)]) else Fails(minus, [])
  {
    hide Shows, Fails;
    var st := NewStore();
    LitEval(a, st);
    LitEval(Unary(Not, Lit(a)), st);
    LitEval(Unary(Negate, Lit(a)), st);
    LitScoped(a, None);
    LitScoped(Unary(Not, Lit(a)), None);
    LitScoped(Unary(Negate, Lit(a)), None);
    PrintMeans(Lit(Unary(Not, Lit(a))));
    PrintMeans(Lit(Unary(Negate, Lit(a))));
  }

  /** `and` is its left operand when that is false and otherwise the right one, `or` the other way round. */
  lemma AndOr(a: Operand, b: Operand)
    requires Literal(a) && Literal(b)
    ensures Shows(Only(Printing(Expr(a, And(Lit(b), End)))), [if IsFalse(a) then ValueOf(a) else ValueOf(b)])
    ensures Shows(Only(Printing(Expr(a, Or(Lit(b), End)))), [if IsFalse(a) then ValueOf(b) else ValueOf(a)])
  {
    hide Shows;
    var st := NewStore();
    LitEval(a, st);
    LitEval(b, st);
    assert EvalRest(End, ValueOf(a), st) == Ok(ValueOf(a), st) && EvalRest(End, ValueOf(b), st) == Ok(ValueOf(b), st);
    LitScoped(a, None);
    LitScoped(b, None);
    OneLinkScoped(a, And(Lit(b), End), None);
    OneLinkScoped(a, Or(Lit(b), End), None);
    assert EvalRest(Or(Lit(b), End), ValueOf(a), st) == Ok(if IsFalse(a) then ValueOf(b) else ValueOf(a), st);
    assert EvalRest(And(Lit(b), End), ValueOf(a), st) == Ok(if IsFalse(a) then ValueOf(a) else ValueOf(b), st);
    PrintMeans(Expr(a, And(Lit(b), End)));
    PrintMeans(Expr(a, Or(Lit(b), End)));
  }

  // ---- statements ----

  /** What a statement prints that comes first. */
  lemma PrintRuns(o: Operand, depth: nat, st: Store, out: seq<Value>, fuel: nat)
    requires Literal(o)
    ensures ExecDecl(Printing(Lit(o)), depth, st, out, fuel) == Normal(st, out + [ValueOf(o)])
  {
    LitEval(o, st);
  }

  /** Statements print in order, and what is printed stays printed when a later one fails. */
  lemma InOrder(a: Operand, b: Operand, name: string)
    requires Literal(a) && Literal(b) && name != "this"
    ensures Shows(Two(Printing(Lit(a)), Printing(Lit(b))), [ValueOf(a), ValueOf(b)])
    ensures Fails(Three(Printing(Lit(a)), Printing(Lit(Variable(name))), Printing(Lit(b))), [ValueOf(a)])
  {
    hide Shows, Fails, Literal, ValueOf;
    var st := NewStore();
    var x, y, z := Printing(Lit(a)), Printing(Lit(b)), Printing(Lit(Variable(name)));
    PrintRuns(a, 0, st, [], 0);
    PrintRuns(b, 0, st, [ValueOf(a)], 0);
    assert [] + [ValueOf(a)] == [ValueOf(a)];
    TwoMean(x, y, 0, st, [], 0);
    ThreeMean(x, z, y, 0, st, [], 0);
    TwoMean(z, y, 0, st, [ValueOf(a)], 0);
    LitEval(Variable(name), st);
    assert Find(st.locals, name) == -1;
    LitScoped(a, None);
    LitScoped(b, None);
    LitScoped(Variable(name), None);
    TwoScoped(x, y, false, {});
    ThreeScoped(x, z, y, false, {});
    TwoScoped(z, y, false, {});
    assert [ValueOf(a)] + [ValueOf(b)] == [ValueOf(a), ValueOf(b)];
    ComesToItsEnd(Two(x, y), 0, Normal(st, [ValueOf(a), ValueOf(b)]));
    ComesToItsEnd(Three(x, z, y), 0, Error([ValueOf(a)]));
  }

  /** `if` takes its else branch, if there is one, for `nil` and `false`, and the other branch for every other
      value. */
  lemma Branches(c: Operand, a: Operand, b: Operand)
    requires Literal(c) && Literal(a) && Literal(b)
    ensures Shows(Only(Statement(If(Lit(c), Print(Lit(a)), SomeStmt(Print(Lit(b)))))),
                  [if IsFalse(c) then ValueOf(b) else ValueOf(a)])
    ensures Shows(Only(Statement(If(Lit(c), Print(Lit(a)), NoStmt))), if IsFalse(c) then [] else [ValueOf(a)])
  {
    hide Shows;
    BranchShows(c, a, b, true);
    BranchShows(c, a, b, false);
  }

  lemma BranchShows(c: Operand, a: Operand, b: Operand, hasElse: bool)
    requires Literal(c) && Literal(a) && Literal(b)
    ensures Shows(Only(Statement(If(Lit(c), Print(Lit(a)), if hasElse then SomeStmt(Print(Lit(b))) else NoStmt))),
                  if !IsFalse(c) then [ValueOf(a)] else if hasElse then [ValueOf(b)] else [])
  {
    hide Shows, Eval, ExprScoped, ExprSize;
    var st := NewStore();
    var branch := If(Lit(c), Print(Lit(a)), if hasElse then SomeStmt(Print(Lit(b))) else NoStmt);
    LitEval(c, st);
    PrintRuns(a, 0, st, [], 0);
    PrintRuns(b, 0, st, [], 0);
    assert [] + [ValueOf(a)] == [ValueOf(a)] && [] + [ValueOf(b)] == [ValueOf(b)];
    var out := if !IsFalse(c) then [ValueOf(a)] else if hasElse then [ValueOf(b)] else [];
    assert Exec(branch, 0, st, [], 0) == Normal(st, out);
    LastMeans(Statement(branch), 0, st, [], 0);
    LitScoped(a, None);
    LitScoped(b, None);
    LitScoped(c, None);
    OneScoped(Statement(branch), false, {});
    assert StmtScoped(Print(Lit(a))) && StmtScoped(Print(Lit(b)));
    assert StmtSize(Print(Lit(a))) == 2 && StmtSize(Print(Lit(b))) == 2;
    ComesToItsEnd(Only(Statement(branch)), 0, Normal(st, out));
  }

  // ---- variables ----

  /** Nothing but this variable: a global at depth 0, a local further in. */
  function Holding(depth: nat, name: string, v: Value): Store {
    var st := NewStore();
    if depth == 0 then Store(st.locals, map[name := v]) else Store(st.locals + [Binding(name, v)], st.globals)
  }

  lemma HoldingReads(depth: nat, name: string, v: Value, w: Value)
    requires name != "this"
    ensures EvalOperand(Variable(name), Holding(depth, name, v)) == Ok(v, Holding(depth, name, v))
    ensures Write(name, w, Holding(depth, name, v)) == Ok(w, Holding(depth, name, w))
  {
    var st := Holding(depth, name, v);
    if depth == 0 {
      assert Find(st.locals, name) == -1;
      assert st.globals[name := w] == map[name := w];
    } else {
      assert st.locals[1] == Binding(name, v) && Find(st.locals, name) == 1;
      assert st.locals[1 := Binding(name, w)] == NewStore().locals + [Binding(name, w)];
    }
  }

  lemma AssignEval(depth: nat, name: string, v: Value, o: Operand)
    requires name != "this" && Literal(o)
    ensures var st := Holding(depth, name, v);
            Eval(Lit(Assign(name, Lit(o))), st) == Ok(ValueOf(o), Holding(depth, name, ValueOf(o)))
  {
    hide Literal, ValueOf, Holding;
    var st := Holding(depth, name, v);
    LitEval(o, st);
    LitEval(Assign(name, Lit(o)), st);
    HoldingReads(depth, name, v, ValueOf(o));
  }

  lemma VarRuns(depth: nat, name: string, init: OptExpr, v: Value, fuel: nat)
    requires if init.SomeExpr? then Eval(init.e, NewStore()) == Ok(v, NewStore()) else v == NilVal
    ensures ExecDecl(Var(name, init), depth, NewStore(), [], fuel) == Normal(Holding(depth, name, v), [])
  {
    hide Eval;
    var none: map<string, Value> := map[];
    assert none[name := v] == map[name := v];
  }

  /** A block alone shows what its declarations do. */
  lemma BlockShows(decls: Decls, fuel: nat, st: Store, out: seq<Value>)
    requires DeclsScoped(decls, true, {}) && DeclsSize(decls) <= 250
    requires ExecDecls(decls, 1, NewStore(), [], fuel) == Normal(st, out)
    ensures Shows(Only(Statement(Block(decls))), out)
  {
    hide ExecDecls, DeclsScoped, DeclsSize, Shows;
    var block := Statement(Block(decls));
    OneScoped(block, false, {});
    LastMeans(block, 0, NewStore(), [], fuel);
    ComesToItsEnd(Only(block), fuel, Leave(Normal(st, out), 1));
  }

  /** `var name = a; print name = b; print name;` */
  function Assigning(name: string, a: Operand, b: Operand): Decls {
    Three(Var(name, SomeExpr(Lit(a))), Printing(Lit(Assign(name, Lit(b)))), Printing(Lit(Variable(name))))
  }

  /** An assignment has the value that the variable then has, globally and in a block. */
  lemma Assignments(name: string, a: Operand, b: Operand)
    requires name != "this" && Literal(a) && Literal(b)
    ensures Shows(Assigning(name, a, b), [ValueOf(b), ValueOf(b)])
    ensures Shows(Only(Statement(Block(Assigning(name, a, b)))), [ValueOf(b), ValueOf(b)])
  {
    hide Shows;
    var v := ValueOf(b);
    AssigningRuns(name, a, b, 0);
    AssigningRuns(name, a, b, 1);
    AssigningScoped(name, a, b, false);
    AssigningScoped(name, a, b, true);
    ComesToItsEnd(Assigning(name, a, b), 0, Normal(Holding(0, name, v), [v, v]));
    BlockShows(Assigning(name, a, b), 0, Holding(1, name, v), [v, v]);
  }

  lemma AssigningRuns(name: string, a: Operand, b: Operand, depth: nat)
    requires name != "this" && Literal(a) && Literal(b)
    ensures ExecDecls(Assigning(name, a, b), depth, NewStore(), [], 0)
            == Normal(Holding(depth, name, ValueOf(b)), [ValueOf(b), ValueOf(b)])
  {
    hide Literal, ValueOf, Holding, Eval;
    var x, y, z := Var(name, SomeExpr(Lit(a))), Printing(Lit(Assign(name, Lit(b)))), Printing(Lit(Variable(name)));
    var v, w := ValueOf(a), ValueOf(b);
    LitEval(a, NewStore());
    VarRuns(depth, name, SomeExpr(Lit(a)), v, 0);
    AssignEval(depth, name, v, b);
    HoldingReads(depth, name, w, w);
    LitEval(Variable(name), Holding(depth, name, w));
    assert [] + [w] == [w] && [w] + [w] == [w, w];
    ThreeMean(x, y, z, depth, NewStore(), [], 0);
    TwoMean(y, z, depth, Holding(depth, name, v), [], 0);
  }

  lemma AssigningScoped(name: string, a: Operand, b: Operand, local: bool)
    requires name != "this" && Literal(a) && Literal(b)
    ensures DeclsScoped(Assigning(name, a, b), local, {}) && DeclsSize(Assigning(name, a, b)) <= 20
  {
    hide DeclsScoped, DeclsSize, ExprScoped, ExprSize;
    var x, y, z := Var(name, SomeExpr(Lit(a))), Printing(Lit(Assign(name, Lit(b)))), Printing(Lit(Variable(name)));
    LitScoped(a, if local then Some(name) else None);
    LitScoped(b, None);
    LitScoped(Assign(name, Lit(b)), None);
    LitScoped(Variable(name), None);
    ThreeScoped(x, y, z, local, {});
    TwoScoped(y, z, local, HereAfter(x, local, {}));
  }

  /** A variable without an initialiser is nil; one that was never declared can be neither read nor assigned. */
  lemma Undefined(name: string, a: Operand)
    requires name != "this" && Literal(a)
    ensures Shows(Two(Var(name, NoExpr), Printing(Lit(Variable(name)))), [NilVal])
    ensures Shows(Only(Statement(Block(Two(Var(name, NoExpr), Printing(Lit(Variable(name))))))), [NilVal])
    ensures Fails(Only(Printing(Lit(Variable(name)))), [])
    ensures Fails(Only(Printing(Lit(Assign(name, Lit(a))))), [])
  {
    hide Shows, Fails, Holding;
    var st, x, y := NewStore(), Var(name, NoExpr), Printing(Lit(Variable(name)));
    assert Find(st.locals, name) == -1;
    LitEval(a, st);
    LitEval(Variable(name), st);
    LitEval(Assign(name, Lit(a)), st);
    LitScoped(a, None);
    LitScoped(Variable(name), None);
    LitScoped(Assign(name, Lit(a)), None);
    PrintMeans(Lit(Variable(name)));
    PrintMeans(Lit(Assign(name, Lit(a))));
    UninitialisedRuns(name, 0);
    UninitialisedRuns(name, 1);
    TwoScoped(x, y, false, {});
    TwoScoped(x, y, true, {});
    ComesToItsEnd(Two(x, y), 0, Normal(Holding(0, name, NilVal), [NilVal]));
    BlockShows(Two(x, y), 0, Holding(1, name, NilVal), [NilVal]);
  }

  lemma UninitialisedRuns(name: string, depth: nat)
    requires name != "this"
    ensures ExecDecls(Two(Var(name, NoExpr), Printing(Lit(Variable(name)))), depth, NewStore(), [], 0)
            == Normal(Holding(depth, name, NilVal), [NilVal])
  {
    hide Holding;
    VarRuns(depth, name, NoExpr, NilVal, 0);
    HoldingReads(depth, name, NilVal, NilVal);
    LitEval(Variable(name), Holding(depth, name, NilVal));
    TwoMean(Var(name, NoExpr), Printing(Lit(Variable(name))), depth, NewStore(), [], 0);
    assert [] + [NilVal] == [NilVal];
  }

  /** `var name = a; print c and (name = b); print name;`, or with `or`. */
  function Skipping(name: string, a: Operand, c: Operand, b: Operand, isAnd: bool): Decls {
    var right := Lit(Grouping(Lit(Assign(name, Lit(b)))));
    Three(Var(name, SomeExpr(Lit(a))), Printing(Expr(c, if isAnd then And(right, End) else Or(right, End))),
          Printing(Lit(Variable(name))))
  }

  /** The right operand of `and` and `or` is evaluated only if it is the value. */
  lemma SkippedOperand(name: string, a: Operand, c: Operand, b: Operand, isAnd: bool)
    requires name != "this" && Literal(a) && Literal(b) && Literal(c)
    ensures Shows(Skipping(name, a, c, b, isAnd),
                  if IsFalse(c) == isAnd then [ValueOf(c), ValueOf(a)] else [ValueOf(b), ValueOf(b)])
  {
    hide Shows, Holding, Eval, DeclsScoped, DeclsSize, ExecDecls;
    var st := NewStore();
    var right := Lit(Grouping(Lit(Assign(name, Lit(b)))));
    var e := Expr(c, if isAnd then And(right, End) else Or(right, End));
    var x, y, z := Var(name, SomeExpr(Lit(a))), Printing(e), Printing(Lit(Variable(name)));
    var u, v, w := ValueOf(a), ValueOf(b), ValueOf(c);
    var skipped := IsFalse(c) == isAnd;
    var value, kept := if skipped then w else v, if skipped then u else v;
    LitEval(a, st);
    VarRuns(0, name, SomeExpr(Lit(a)), u, 0);
    SkipEval(name, u, c, b, isAnd);
    HoldingReads(0, name, kept, kept);
    LitEval(Variable(name), Holding(0, name, kept));
    ThreeMean(x, y, z, 0, st, [], 0);
    TwoMean(y, z, 0, Holding(0, name, u), [], 0);
    assert [] + [value] == [value] && [value] + [kept] == [value, kept];
    SkippingScoped(name, a, c, b, isAnd);
    ComesToItsEnd(Skipping(name, a, c, b, isAnd), 0, Normal(Holding(0, name, kept), [value, kept]));
  }

  lemma SkippingScoped(name: string, a: Operand, c: Operand, b: Operand, isAnd: bool)
    requires name != "this" && Literal(a) && Literal(b) && Literal(c)
    ensures DeclsScoped(Skipping(name, a, c, b, isAnd), false, {}) && DeclsSize(Skipping(name, a, c, b, isAnd)) <= 20
  {
    hide DeclsScoped, DeclsSize, ExprScoped, ExprSize;
    var assign := Assign(name, Lit(b));
    var right := Lit(Grouping(Lit(assign)));
    var e := Expr(c, if isAnd then And(right, End) else Or(right, End));
    var x, y, z := Var(name, SomeExpr(Lit(a))), Printing(e), Printing(Lit(Variable(name)));
    LitScoped(a, None);
    LitScoped(b, None);
    LitScoped(c, None);
    LitScoped(assign, None);
    LitScoped(Grouping(Lit(assign)), None);
    LitScoped(Variable(name), None);
    OneLinkScoped(c, e.rest, None);
    ThreeScoped(x, y, z, false, {});
    TwoScoped(y, z, false, {});
  }

  lemma SkipEval(name: string, u: Value, c: Operand, b: Operand, isAnd: bool)
    requires name != "this" && Literal(b) && Literal(c)
    ensures var right := Lit(Grouping(Lit(Assign(name, Lit(b)))));
            Eval(Expr(c, if isAnd then And(right, End) else Or(right, End)), Holding(0, name, u))
            == if IsFalse(c) == isAnd then Ok(ValueOf(c), Holding(0, name, u)) else Ok(ValueOf(b), Holding(0, name, ValueOf(b)))
  {
    hide Holding;
    var st := Holding(0, name, u);
    var inner := Lit(Assign(name, Lit(b)));
    LitEval(c, st);
    AssignEval(0, name, u, b);
    LitEval(Grouping(inner), st);
    var right := Lit(Grouping(inner));
    assert Eval(right, st) == Ok(ValueOf(b), Holding(0, name, ValueOf(b)));
    assert EvalRest(End, ValueOf(c), st) == Ok(ValueOf(c), st);
    assert EvalRest(End, ValueOf(b), Holding(0, name, ValueOf(b))) == Ok(ValueOf(b), Holding(0, name, ValueOf(b)));
    var rest := if isAnd then And(right, End) else Or(right, End);
    assert EvalRest(rest, ValueOf(c), st)
        == if IsFalse(c) == isAnd then Ok(ValueOf(c), st) else Ok(ValueOf(b), Holding(0, name, ValueOf(b)));
  }

  /** `var name = a; { var name = b; print name; name = c; } print name;` */
  function Shadowing(name: string, a: Operand, b: Operand, c: Operand): Decls {
    var inner := Three(Var(name, SomeExpr(Lit(b))), Printing(Lit(Variable(name))),
                       Statement(Expression(Lit(Assign(name, Lit(c))))));
    Three(Var(name, SomeExpr(Lit(a))), Statement(Block(inner)), Printing(Lit(Variable(name))))
  }

  /** A variable of a block hides the one outside, global or local, which is itself again behind the block. */
  lemma Shadowed(name: string, a: Operand, b: Operand, c: Operand)
    requires name != "this" && Literal(a) && Literal(b) && Literal(c)
    ensures Shows(Shadowing(name, a, b, c), [ValueOf(b), ValueOf(a)])
    ensures Shows(Only(Statement(Block(Shadowing(name, a, b, c)))), [ValueOf(b), ValueOf(a)])
  {
    hide Shows, Holding;
    var v := ValueOf(a);
    ShadowingRuns(name, a, b, c, 0);
    ShadowingRuns(name, a, b, c, 1);
    ShadowingScoped(name, a, b, c, false);
    ShadowingScoped(name, a, b, c, true);
    ComesToItsEnd(Shadowing(name, a, b, c), 0, Normal(Holding(0, name, v), [ValueOf(b), v]));
    BlockShows(Shadowing(name, a, b, c), 0, Holding(1, name, v), [ValueOf(b), v]);
  }

  lemma ShadowingRuns(name: string, a: Operand, b: Operand, c: Operand, depth: nat)
    requires name != "this" && Literal(a) && Literal(b) && Literal(c)
    ensures ExecDecls(Shadowing(name, a, b, c), depth, NewStore(), [], 0)
            == Normal(Holding(depth, name, ValueOf(a)), [ValueOf(b), ValueOf(a)])
  {
    hide Literal, ValueOf, Holding, Eval, ExecDecls;
    var st, v, w := Holding(depth, name, ValueOf(a)), ValueOf(a), ValueOf(b);
    var x, y, z := Var(name, SomeExpr(Lit(b))), Printing(Lit(Variable(name))), Statement(Expression(Lit(Assign(name, Lit(c)))));
    var inner := Three(x, y, z);
    var first, last := Var(name, SomeExpr(Lit(a))), Printing(Lit(Variable(name)));
    LitEval(a, NewStore());
    VarRuns(depth, name, SomeExpr(Lit(a)), v, 0);
    InnerRuns(name, b, c, st, depth + 1);
    assert Leave(ExecDecls(inner, depth + 1, st, [], 0), |st.locals|) == Normal(st, [w]);
    HoldingReads(depth, name, v, v);
    LitEval(Variable(name), st);
    ThreeMean(first, Statement(Block(inner)), last, depth, NewStore(), [], 0);
    TwoMean(Statement(Block(inner)), last, depth, st, [], 0);
    assert [w] + [v] == [w, v];
  }

  lemma InnerRuns(name: string, b: Operand, c: Operand, st: Store, depth: nat)
    requires name != "this" && Literal(b) && Literal(c) && depth > 0
    ensures var x, y := Var(name, SomeExpr(Lit(b))), Printing(Lit(Variable(name)));
            var z := Statement(Expression(Lit(Assign(name, Lit(c)))));
            ExecDecls(Three(x, y, z), depth, st, [], 0)
            == Normal(st.(locals := st.locals + [Binding(name, ValueOf(c))]), [ValueOf(b)])
  {
    hide Literal, ValueOf, Eval;
    var x, y, z := Var(name, SomeExpr(Lit(b))), Printing(Lit(Variable(name))), Statement(Expression(Lit(Assign(name, Lit(c)))));
    var v, w := ValueOf(b), ValueOf(c);
    var here := st.(locals := st.locals + [Binding(name, v)]);
    LitEval(b, st);
    LitEval(c, here);
    LitEval(Variable(name), here);
    LitEval(Assign(name, Lit(c)), here);
    assert here.locals[|st.locals|] == Binding(name, v) && Find(here.locals, name) == |st.locals|;
    assert here.locals[|st.locals| := Binding(name, w)] == st.locals + [Binding(name, w)];
    ThreeMean(x, y, z, depth, st, [], 0);
    TwoMean(y, z, depth, here, [], 0);
    assert [] + [v] == [v];
  }

  lemma ShadowingScoped(name: string, a: Operand, b: Operand, c: Operand, local: bool)
    requires name != "this" && Literal(a) && Literal(b) && Literal(c)
    ensures DeclsScoped(Shadowing(name, a, b, c), local, {}) && DeclsSize(Shadowing(name, a, b, c)) <= 20
  {
    hide DeclsScoped, DeclsSize, ExprScoped, ExprSize, Literal;
    var x, y, z := Var(name, SomeExpr(Lit(b))), Printing(Lit(Variable(name))), Statement(Expression(Lit(Assign(name, Lit(c)))));
    var first, block, last := Var(name, SomeExpr(Lit(a))), Statement(Block(Three(x, y, z))), Printing(Lit(Variable(name)));
    LitScoped(a, if local then Some(name) else None);
    LitScoped(Variable(name), None);
    InnerScoped(name, b, c);
    ThreeScoped(first, block, last, local, {});
    TwoScoped(block, last, local, HereAfter(first, local, {}));
  }

  lemma InnerScoped(name: string, b: Operand, c: Operand)
    requires name != "this" && Literal(b) && Literal(c)
    ensures var x, y := Var(name, SomeExpr(Lit(b))), Printing(Lit(Variable(name)));
            var z := Statement(Expression(Lit(Assign(name, Lit(c)))));
            DeclsScoped(Three(x, y, z), true, {}) && DeclsSize(Three(x, y, z)) <= 10
  {
    hide DeclsScoped, DeclsSize, ExprScoped, ExprSize, Literal;
    var x, y, z := Var(name, SomeExpr(Lit(b))), Printing(Lit(Variable(name))), Statement(Expression(Lit(Assign(name, Lit(c)))));
    LitScoped(b, Some(name));
    LitScoped(c, None);
    LitScoped(Variable(name), None);
    LitScoped(Assign(name, Lit(c)), None);
    ThreeScoped(x, y, z, true, {});
    TwoScoped(y, z, true, HereAfter(x, true, {}));
  }

  // ---- loops ----

  function Down(n: nat): seq<Value> {
    if n == 0 then [] else [Int(n)] + Down(n - 1)
  }

  /** `while (name > 0) { print name; name = name - 1; }` */
  function CountDown(name: string): Stmt {
    While(Chain(Variable(name), Greater, Number(0)), CountDownBody(name))
  }

  function CountDownBody(name: string): Stmt {
    Block(Two(Printing(Lit(Variable(name))),
              Statement(Expression(Lit(Assign(name, Chain(Variable(name), Subtract, Number(1))))))))
  }

  /** After `var name = n` the loop prints n, n - 1 and so on down to 1, and ends. */
  lemma CountsDown(name: string, n: nat)
    requires name != "this"
    ensures Shows(Two(Var(name, SomeExpr(Lit(Number(n)))), Statement(CountDown(name))), Down(n))
  {
    hide Shows, Holding, Eval, Exec;
    var x, y := Var(name, SomeExpr(Lit(Number(n)))), Statement(CountDown(name));
    LitEval(Number(n), NewStore());
    VarRuns(0, name, SomeExpr(Lit(Number(n))), Int(n), n);
    CountDownRuns(name, n, [], n);
    TwoMean(x, y, 0, NewStore(), [], n);
    assert [] + Down(n) == Down(n);
    LitScoped(Number(n), None);
    CountDownScoped(name);
    TwoScoped(x, y, false, {});
    ComesToItsEnd(Two(x, y), n, Normal(Holding(0, name, Int(0)), Down(n)));
  }

  lemma {:induction false} CountDownRuns(name: string, n: nat, out: seq<Value>, fuel: nat)
    requires name != "this" && n <= fuel
    ensures Exec(CountDown(name), 0, Holding(0, name, Int(n)), out, fuel) == Normal(Holding(0, name, Int(0)), out + Down(n))
    decreases n
  {
    hide Holding, Eval, Exec, CountDown, CountDownBody, Down;
    var test, body := Chain(Variable(name), Greater, Number(0)), CountDownBody(name);
    IsWhile(name);
    CountDownTest(name, n);
    WhileRound(test, body, Holding(0, name, Int(n)), out, fuel, n > 0);
    DownNext(out, n);
    if n > 0 {
      CountDownRound(name, n, out, fuel);
      CountDownRuns(name, n - 1, out + [Int(n)], fuel - 1);
    }
  }

  lemma DownNext(out: seq<Value>, n: nat)
    ensures out + Down(n) == if n == 0 then out else out + [Int(n)] + Down(n - 1)
  {
  }

  lemma IsWhile(name: string)
    ensures CountDown(name) == While(Chain(Variable(name), Greater, Number(0)), CountDownBody(name))
  {
  }

  /** A round of a `while` loop outside of all blocks. */
  lemma WhileRound(test: Expr, body: Stmt, st: Store, out: seq<Value>, fuel: nat, more: bool)
    requires Eval(test, st) == Ok(Bool(more), st)
    ensures !more ==> Exec(While(test, body), 0, st, out, fuel) == Normal(st, out)
    ensures var b := Exec(body, 0, st, out, fuel);
            more && b.Normal? && fuel > 0 ==>
              Exec(While(test, body), 0, st, out, fuel) == Exec(While(test, body), 0, b.store, b.out, fuel - 1)
  {
    hide Eval;
  }

  lemma CountDownTest(name: string, n: nat)
    requires name != "this"
    ensures Eval(Chain(Variable(name), Greater, Number(0)), Holding(0, name, Int(n))) == Ok(Bool(n > 0), Holding(0, name, Int(n)))
  {
    hide Holding, Eval;
    var st := Holding(0, name, Int(n));
    HoldingReads(0, name, Int(n), Int(n));
    LitEval(Number(0), st);
    ChainEval(Variable(name), Greater, Number(0), st, Int(n), Int(0));
  }

  lemma CountDownRound(name: string, n: nat, out: seq<Value>, fuel: nat)
    requires name != "this" && n > 0
    ensures Exec(CountDownBody(name), 0, Holding(0, name, Int(n)), out, fuel)
            == Normal(Holding(0, name, Int(n - 1)), out + [Int(n)])
  {
    hide Eval, ExecDecls;
    var st, next := Holding(0, name, Int(n)), Chain(Variable(name), Subtract, Number(1));
    var x, y := Printing(Lit(Variable(name))), Statement(Expression(Lit(Assign(name, next))));
    HoldingReads(0, name, Int(n), Int(n - 1));
    LitEval(Variable(name), st);
    LitEval(Number(1), st);
    ChainEval(Variable(name), Subtract, Number(1), st, Int(n), Int(1));
    LitEval(Assign(name, next), st);
    TwoMean(x, y, 1, st, out, fuel);
  }

  lemma CountDownScoped(name: string)
    requires name != "this"
    ensures StmtScoped(CountDown(name)) && StmtSize(CountDown(name)) <= 20
  {
    hide DeclsScoped, DeclsSize, ExprScoped, ExprSize;
    var next := Chain(Variable(name), Subtract, Number(1));
    var x, y := Printing(Lit(Variable(name))), Statement(Expression(Lit(Assign(name, next))));
    LitScoped(Variable(name), None);
    LitScoped(Number(0), None);
    LitScoped(Number(1), None);
    ChainScoped(Variable(name), Greater, Number(0), None);
    ChainScoped(Variable(name), Subtract, Number(1), None);
    LitScoped(Assign(name, next), None);
    TwoScoped(x, y, true, {});
    assert StmtScoped(CountDownBody(name)) && StmtSize(CountDownBody(name)) <= 12;
  }

  function Up(i: nat, n: nat): seq<Value>
    decreases n - i
  {
    if i >= n then [] else [Int(i)] + Up(i + 1, n)
  }

  /** `for (var name = 0; name < n; name = name + 1) print name;` */
  function CountUp(name: string, n: nat): Stmt {
    For(Only(Var(name, SomeExpr(Lit(Number(0))))), SomeExpr(Chain(Variable(name), Less, Number(n))),
        SomeExpr(Lit(Assign(name, Chain(Variable(name), Add, Number(1))))), Print(Lit(Variable(name))))
  }

  /** It prints 0, 1 and so on up to n - 1, and ends. */
  lemma CountsUp(name: string, n: nat)
    requires name != "this"
    ensures Shows(Only(Statement(CountUp(name, n))), Up(0, n))
  {
    hide Shows, Holding, Eval, ExecDecls, Loop;
    var x := Var(name, SomeExpr(Lit(Number(0))));
    var loop := CountUp(name, n);
    LitEval(Number(0), NewStore());
    VarRuns(1, name, SomeExpr(Lit(Number(0))), Int(0), n);
    LastMeans(x, 1, NewStore(), [], n);
    CountUpRuns(name, 0, n, [], n);
    assert [] + Up(0, n) == Up(0, n);
    LeaveHolding(name, Int(n), Up(0, n));
    LastMeans(Statement(loop), 0, NewStore(), [], n);
    CountUpScoped(name, n);
    OneScoped(Statement(loop), false, {});
    ComesToItsEnd(Only(Statement(loop)), n, Normal(NewStore(), Up(0, n)));
  }

  lemma LeaveHolding(name: string, v: Value, out: seq<Value>)
    ensures Leave(Normal(Holding(1, name, v), out), 1) == Normal(NewStore(), out)
  {
    assert Holding(1, name, v).locals[..1] == NewStore().locals;
  }

  lemma {:induction false} CountUpRuns(name: string, i: nat, n: nat, out: seq<Value>, fuel: nat)
    requires name != "this" && i <= n && n - i <= fuel
    ensures var s := CountUp(name, n);
            Loop(s.cond, s.step, s.body, 1, Holding(1, name, Int(i)), out, fuel)
            == Normal(Holding(1, name, Int(n)), out + Up(i, n))
    decreases n - i
  {
    hide Holding, Eval;
    CountUpEvals(name, i, n);
    if i == n {
      assert out + Up(n, n) == out;
    } else {
      CountUpRuns(name, i + 1, n, out + [Int(i)], fuel - 1);
      assert out + [Int(i)] + Up(i + 1, n) == out + Up(i, n);
    }
  }

  lemma CountUpEvals(name: string, i: nat, n: nat)
    requires name != "this"
    ensures var st, s := Holding(1, name, Int(i)), CountUp(name, n);
            && Eval(s.cond.e, st) == Ok(Bool(i < n), st) && Eval(s.body.e, st) == Ok(Int(i), st)
            && Eval(s.step.e, st) == Ok(Int(i + 1), Holding(1, name, Int(i + 1)))
  {
    hide Holding, Eval;
    var st := Holding(1, name, Int(i));
    var next := Chain(Variable(name), Add, Number(1));
    HoldingReads(1, name, Int(i), Int(i + 1));
    LitEval(Number(n), st);
    LitEval(Number(1), st);
    LitEval(Variable(name), st);
    ChainEval(Variable(name), Less, Number(n), st, Int(i), Int(n));
    ChainEval(Variable(name), Add, Number(1), st, Int(i), Int(1));
    LitEval(Assign(name, next), st);
  }

  lemma CountUpScoped(name: string, n: nat)
    requires name != "this"
    ensures StmtScoped(CountUp(name, n)) && StmtSize(CountUp(name, n)) <= 20
  {
    hide DeclsScoped, DeclsSize, ExprScoped, ExprSize;
    var next, s := Chain(Variable(name), Add, Number(1)), CountUp(name, n);
    LitScoped(Variable(name), None);
    LitScoped(Number(0), Some(name));
    LitScoped(Number(n), None);
    LitScoped(Number(1), None);
    ChainScoped(Variable(name), Less, Number(n), None);
    ChainScoped(Variable(name), Add, Number(1), None);
    LitScoped(Assign(name, next), None);
    OneScoped(s.init.head, true, {});
    assert StmtScoped(s.body) && StmtSize(s.body) == 2;
  }
}
