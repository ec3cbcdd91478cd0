/** A subset of yarg: its syntax tree as the parser leaves it, and what a program means. */
module Language {
  import BigIntDiv

  datatype UnaryOp = Not | Negate

  datatype BinaryOp =
    | Equal | NotEqual | Greater | GreaterEqual | Less | LessEqual
    | Add | Subtract | Multiply | Divide | Modulo

  /** An expression is a chain (`nextExpr`): an operand, then the operations that are applied to
      what has been computed so far, left to right. */
  datatype Expr = Expr(first: Operand, rest: Operations)

  datatype Operand =
    | Number(n: int)
    | True
    | False
    | NilLiteral
    | Grouping(e: Expr)
    | Variable(name: string)
    | Assign(name: string, value: Expr)
    | Unary(op: UnaryOp, rhs: Expr)

  datatype Operations =
    | End
    | Binary(op: BinaryOp, rhs: Expr, rest: Operations)
    | And(rhs: Expr, rest: Operations)
    | Or(rhs: Expr, rest: Operations)

  datatype OptExpr = NoExpr | SomeExpr(e: Expr)

  datatype Stmt =
    | Expression(e: Expr)
    | Print(e: Expr)
    | Block(decls: Decls)
    | If(test: Expr, thn: Stmt, els: OptStmt)
    | While(test: Expr, body: Stmt)
    | For(init: Decls, cond: OptExpr, step: OptExpr, body: Stmt)

  datatype OptStmt = NoStmt | SomeStmt(s: Stmt)

  datatype Decl = Var(name: string, init: OptExpr) | Statement(s: Stmt)

  datatype Decls = Nil | Cons(head: Decl, tail: Decls)

  // ---- values ----

  /** `Script` is the function value in slot 0 of the frame. */
  datatype Value = NilVal | Bool(b: bool) | Int(n: int) | Script

  predicate Falsey(v: Value) {
    v == NilVal || v == Bool(false)
  }

  datatype Option<T> = None | Some(value: T)

  /** What a binary operator does to two values; `None` is a run-time error. */
  function Apply(op: BinaryOp, a: Value, b: Value): Option<Value> {
    match op
    case Equal => Some(Bool(a == b))
    case NotEqual => Some(Bool(a != b))
    case _ => if a.Int? && b.Int? then ApplyInt(op, a.n, b.n) else None
  }

  function ApplyInt(op: BinaryOp, a: int, b: int): Option<Value> {
    match op
    case Equal => Some(Bool(a == b))
    case NotEqual => Some(Bool(a != b))
    case Greater => Some(Bool(a > b))
    case GreaterEqual => Some(Bool(a >= b))
    case Less => Some(Bool(a < b))
    case LessEqual => Some(Bool(a <= b))
    case Add => Some(Int(a + b))
    case Subtract => Some(Int(a - b))
    case Multiply => Some(Int(a * b))
    case Divide => if b == 0 then None else Some(Int(BigIntDiv.TruncDiv(a, b)))
    case Modulo => if b == 0 then None else Some(Int(BigIntDiv.YargRem(a, b)))
  }

  function ApplyUnary(op: UnaryOp, a: Value): Option<Value> {
    match op
    case Not => Some(Bool(Falsey(a)))
    case Negate => if a.Int? then Some(Int(-a.n)) else None
  }

  // ---- evaluation ----

  datatype Binding = Binding(name: string, value: Value)

  /** The local variables in scope, innermost last, and the globals. */
  datatype Store = Store(locals: seq<Binding>, globals: map<string, Value>)

  datatype Result = Ok(value: Value, store: Store) | Failure

  /** The last element with this name, or -1. */
  function Innermost<T>(s: seq<T>, nameOf: T -> string, name: string): (i: int)
    ensures -1 <= i < |s|
    ensures i >= 0 ==> nameOf(s[i]) == name
    ensures forall j :: i < j < |s| ==> nameOf(s[j]) != name
  {
    if |s| == 0 then -1
    else if nameOf(s[|s| - 1]) == name then |s| - 1
    else Innermost(s[..|s| - 1], nameOf, name)
  }

  /** The innermost local with this name, or -1. */
  function Find(locals: seq<Binding>, name: string): (i: int)
    ensures -1 <= i < |locals|
    ensures i >= 0 ==> locals[i].name == name
    ensures forall j :: i < j < |locals| ==> locals[j].name != name
  {
    Innermost(locals, (b: Binding) => b.name, name)
  }

  /** The same variables, perhaps with other values. */
  predicate SameNames(a: seq<Binding>, b: seq<Binding>) {
    |a| == |b| && forall i :: 0 <= i < |a| ==> a[i].name == b[i].name
  }

  function Read(name: string, st: Store): Result {
    var i := Find(st.locals, name);
    if i >= 0 then Ok(st.locals[i].value, st)
    else if name in st.globals then Ok(st.globals[name], st)
    else Failure
  }

  function Write(name: string, v: Value, st: Store): (result: Result)
    ensures result.Ok? ==> SameNames(st.locals, result.store.locals)
  {
    var i := Find(st.locals, name);
    if i >= 0 then Ok(v, st.(locals := st.locals[i := Binding(name, v)]))
    else if name in st.globals then Ok(v, st.(globals := st.globals[name := v]))
    else Failure
  }

  function Eval(e: Expr, st: Store): (result: Result)
    ensures result.Ok? ==> SameNames(st.locals, result.store.locals)
  {
    var r := EvalOperand(e.first, st);
    if r.Failure? then r else EvalRest(e.rest, r.value, r.store)
  }

  function EvalOperand(o: Operand, st: Store): (result: Result)
    ensures result.Ok? ==> SameNames(st.locals, result.store.locals)
  {
    match o
    case Number(n) => Ok(Int(n), st)
    case True => Ok(Bool(true), st)
    case False => Ok(Bool(false), st)
    case NilLiteral => Ok(NilVal, st)
    case Grouping(e) => Eval(e, st)
    case Variable(name) => Read(name, st)
    case Assign(name, value) =>
      var r := Eval(value, st);
      if r.Failure? then r else Write(name, r.value, r.store)
    case Unary(op, rhs) =>
      var r := Eval(rhs, st);
      if r.Failure? then r
      else match ApplyUnary(op, r.value)
           case None => Failure
           case Some(v) => Ok(v, r.store)
  }

  function EvalRest(ops: Operations, acc: Value, st: Store): (result: Result)
    ensures result.Ok? ==> SameNames(st.locals, result.store.locals)
  {
    match ops
    case End => Ok(acc, st)
    case Binary(op, rhs, rest) =>
      var r := Eval(rhs, st);
      if r.Failure? then r
      else (match Apply(op, acc, r.value)
            case None => Failure
            case Some(v) => EvalRest(rest, v, r.store))
    case And(rhs, rest) =>
      if Falsey(acc) then EvalRest(rest, acc, st)
      else
        var r := Eval(rhs, st);
        if r.Failure? then r else EvalRest(rest, r.value, r.store)
    case Or(rhs, rest) =>
      if !Falsey(acc) then EvalRest(rest, acc, st)
      else
        var r := Eval(rhs, st);
        if r.Failure? then r else EvalRest(rest, r.value, r.store)
  }

  // ---- execution ----

  /** `Timeout`: the loops did not end within the given number of rounds. */
  datatype Outcome = Normal(store: Store, out: seq<Value>) | Error(out: seq<Value>) | Timeout

  function EvalOpt(e: OptExpr, st: Store): (result: Result)
    ensures result.Ok? ==> SameNames(st.locals, result.store.locals)
  {
    match e
    case NoExpr => Ok(NilVal, st)
    case SomeExpr(x) => Eval(x, st)
  }

  /** `depth` is the nesting of scopes: at depth 0 variables are global. */
  function ExecDecl(d: Decl, depth: nat, st: Store, out: seq<Value>, fuel: nat): Outcome
    decreases fuel, d
  {
    match d
    case Statement(s) => Exec(s, depth, st, out, fuel)
    case Var(name, init) =>
      var r := EvalOpt(init, st);
      if r.Failure? then Error(out)
      else if depth == 0 then Normal(r.store.(globals := r.store.globals[name := r.value]), out)
      else Normal(r.store.(locals := r.store.locals + [Binding(name, r.value)]), out)
  }

  function ExecDecls(ds: Decls, depth: nat, st: Store, out: seq<Value>, fuel: nat): Outcome
    decreases fuel, ds
  {
    match ds
    case Nil => Normal(st, out)
    case Cons(d, rest) =>
      var r := ExecDecl(d, depth, st, out, fuel);
      if r.Normal? then ExecDecls(rest, depth, r.store, r.out, fuel) else r
  }

  /** Leaving a scope forgets the locals declared in it. */
  function Leave(r: Outcome, n: nat): Outcome {
    if r.Normal? && n <= |r.store.locals| then r.(store := r.store.(locals := r.store.locals[..n])) else r
  }

  function Exec(s: Stmt, depth: nat, st: Store, out: seq<Value>, fuel: nat): Outcome
    decreases fuel, s, 0
  {
    match s
    case Expression(e) =>
      var r := Eval(e, st);
      if r.Failure? then Error(out) else Normal(r.store, out)
    case Print(e) =>
      var r := Eval(e, st);
      if r.Failure? then Error(out) else Normal(r.store, out + [r.value])
    case Block(decls) =>
      Leave(ExecDecls(decls, depth + 1, st, out, fuel), |st.locals|)
    case If(test, thn, els) =>
      var r := Eval(test, st);
      if r.Failure? then Error(out)
      else if !Falsey(r.value) then Exec(thn, depth, r.store, out, fuel)
      else (match els
            case NoStmt => Normal(r.store, out)
            case SomeStmt(x) => Exec(x, depth, r.store, out, fuel))
    case While(test, body) =>
      var r := Eval(test, st);
      if r.Failure? then Error(out)
      else if Falsey(r.value) then Normal(r.store, out)
      else
        var b := Exec(body, depth, r.store, out, fuel);
        if !b.Normal? then b
        else if fuel == 0 then Timeout
        else Exec(s, depth, b.store, b.out, fuel - 1)
    case For(init, cond, step, body) =>
      var r := ExecDecls(init, depth + 1, st, out, fuel);
      if !r.Normal? then r
      else Leave(Loop(cond, step, body, depth + 1, r.store, r.out, fuel), |st.locals|)
  }

  /** The rounds of a `for` loop: condition, body, step. */
  function Loop(cond: OptExpr, step: OptExpr, body: Stmt, depth: nat, st: Store, out: seq<Value>, fuel: nat): Outcome
    decreases fuel, body, 1
  {
    var r := if cond.NoExpr? then Ok(Bool(true), st) else Eval(cond.e, st);
    if r.Failure? then Error(out)
    else if Falsey(r.value) then Normal(r.store, out)
    else
      var b := Exec(body, depth, r.store, out, fuel);
      if !b.Normal? then b
      else
        var i := EvalOpt(step, b.store);
        if i.Failure? then Error(b.out)
        else if fuel == 0 then Timeout
        else Loop(cond, step, body, depth, i.store, b.out, fuel - 1)
  }

  /** A whole script, run from scratch. */
  function Meaning(script: Decls, fuel: nat): Outcome {
    ExecDecls(script, 0, Store([Binding("this", Script)], map[]), [], fuel)
  }

  // ---- an outcome does not depend on the bound ----

  /** A script that ends within some number of rounds means the same with any larger bound. */
  lemma MeaningSettles(script: Decls, f: nat, g: nat)
    requires f <= g && !Meaning(script, f).Timeout?
    ensures Meaning(script, g) == Meaning(script, f)
  {
    DeclsSettle(script, 0, Store([Binding("this", Script)], map[]), [], f, g);
  }

  /** However many rounds its loops are given, a script that ends means one thing. */
  lemma OneMeaning(script: Decls, f: nat, g: nat)
    requires !Meaning(script, f).Timeout? && !Meaning(script, g).Timeout?
    ensures Meaning(script, f) == Meaning(script, g)
  {
    if f <= g {
      MeaningSettles(script, f, g);
    } else {
      MeaningSettles(script, g, f);
    }
  }

  lemma {:induction false} DeclsSettle(ds: Decls, depth: nat, st: Store, out: seq<Value>, f: nat, g: nat)
    requires f <= g && !ExecDecls(ds, depth, st, out, f).Timeout?
    ensures ExecDecls(ds, depth, st, out, g) == ExecDecls(ds, depth, st, out, f)
    decreases f, ds
  {
    hide Eval, Exec;
    match ds
    case Nil =>
    case Cons(d, rest) =>
      var r := ExecDecl(d, depth, st, out, f);
      if d.Statement? {
        StmtSettles(d.s, depth, st, out, f, g);
      }
      if r.Normal? {
        DeclsSettle(rest, depth, r.store, r.out, f, g);
      }
  }

  lemma {:induction false} StmtSettles(s: Stmt, depth: nat, st: Store, out: seq<Value>, f: nat, g: nat)
    requires f <= g && !Exec(s, depth, st, out, f).Timeout?
    ensures Exec(s, depth, st, out, g) == Exec(s, depth, st, out, f)
    decreases f, s, 0
  {
    hide Eval, Loop, ExecDecls;
    match s
    case Expression(e) =>
    case Print(e) =>
    case Block(decls) =>
      DeclsSettle(decls, depth + 1, st, out, f, g);
    case If(test, thn, els) =>
      var r := Eval(test, st);
      if r.Ok? && !Falsey(r.value) {
        StmtSettles(thn, depth, r.store, out, f, g);
      } else if r.Ok? && els.SomeStmt? {
        StmtSettles(els.s, depth, r.store, out, f, g);
      }
    case While(test, body) =>
      var r := Eval(test, st);
      if r.Ok? && !Falsey(r.value) {
        StmtSettles(body, depth, r.store, out, f, g);
        var b := Exec(body, depth, r.store, out, f);
        if b.Normal? {
          StmtSettles(s, depth, b.store, b.out, f - 1, g - 1);
        }
      }
    case For(init, cond, step, body) =>
      DeclsSettle(init, depth + 1, st, out, f, g);
      var r := ExecDecls(init, depth + 1, st, out, f);
      if r.Normal? {
        LoopSettles(cond, step, body, depth + 1, r.store, r.out, f, g);
      }
  }

  lemma {:induction false} LoopSettles(cond: OptExpr, step: OptExpr, body: Stmt, depth: nat, st: Store, out: seq<Value>,
                                       f: nat, g: nat)
    requires f <= g && !Loop(cond, step, body, depth, st, out, f).Timeout?
    ensures Loop(cond, step, body, depth, st, out, g) == Loop(cond, step, body, depth, st, out, f)
    decreases f, body, 1
  {
    hide Eval, EvalOpt, Exec;
    var r := if cond.NoExpr? then Ok(Bool(true), st) else Eval(cond.e, st);
    if r.Ok? && !Falsey(r.value) {
      StmtSettles(body, depth, r.store, out, f, g);
      var b := Exec(body, depth, r.store, out, f);
      if b.Normal? {
        var i := EvalOpt(step, b.store);
        if i.Ok? {
          LoopSettles(cond, step, body, depth, i.store, b.out, f - 1, g - 1);
        }
      }
    }
  }
}
