/** What the precedences come to, in tokens: how operators next to each other are put together. */
module GrammarLaws {
  import opened Language
  import opened Grammar

  // ---- which binds more tightly ----

  /** `or` binds less tightly than `and`, and `and` less than every binary operator. */
  lemma LogicBindsLeast(op: BinaryOp)
    ensures 0 < Precedence(OrToken) < Precedence(AndToken) < Precedence(Operator(op)) < PREC_UNARY
  {
  }

  /** Equality, then comparison, then sums and remainders, then products and quotients. */
  lemma OperatorOrder(op: BinaryOp, tighter: BinaryOp)
    ensures op in {Equal, NotEqual} && tighter in {Greater, GreaterEqual, Less, LessEqual} ==>
              Precedence(Operator(op)) < Precedence(Operator(tighter))
    ensures op in {Greater, GreaterEqual, Less, LessEqual} && tighter in {Add, Subtract, Modulo} ==>
              Precedence(Operator(op)) < Precedence(Operator(tighter))
    ensures op in {Add, Subtract, Modulo} && tighter in {Multiply, Divide} ==>
              Precedence(Operator(op)) < Precedence(Operator(tighter))
  {
  }

  // ---- writing chains of variables ----

  function Name(name: string): Expr {
    Expr(Variable(name), End)
  }

  lemma EndWritten()
    ensures OperationsTokens(End) == []
  {
  }

  lemma TokensOf(e: Expr)
    ensures Tokens(e) == OperandTokens(e.first) + OperationsTokens(e.rest)
  {
  }

  lemma WellFormedOf(e: Expr, p: nat)
    requires !e.first.Assign? && WellFormedOperand(e.first, p) && WellFormedOperations(e.rest, p, PREC_FACTOR)
    ensures WellFormed(e, p)
  {
  }

  lemma NameWritten(name: string, p: nat)
    ensures Tokens(Name(name)) == [Identifier(name)] && WellFormed(Name(name), p)
  {
    EndWritten();
  }

  /** One more link in front: its tokens, and that the chain is still one of its precedence. */
  lemma BinaryWritten(op: BinaryOp, rhs: Expr, rest: Operations, p: nat, max: int)
    ensures OperationsTokens(Binary(op, rhs, rest)) == [Operator(op)] + Tokens(rhs) + OperationsTokens(rest)
    ensures p <= OperatorPrecedence(op) <= max && WellFormed(rhs, OperatorPrecedence(op) + 1)
            && WellFormedOperations(rest, p, OperatorPrecedence(op)) ==>
              WellFormedOperations(Binary(op, rhs, rest), p, max)
  {
  }

  lemma AndWritten(rhs: Expr, rest: Operations, p: nat, max: int)
    ensures OperationsTokens(And(rhs, rest)) == [AndToken] + Tokens(rhs) + OperationsTokens(rest)
    ensures p <= PREC_AND <= max && WellFormed(rhs, PREC_AND) && WellFormedOperations(rest, p, PREC_AND - 1) ==>
              WellFormedOperations(And(rhs, rest), p, max)
  {
  }

  lemma OrWritten(rhs: Expr, rest: Operations, p: nat, max: int)
    ensures OperationsTokens(Or(rhs, rest)) == [OrToken] + Tokens(rhs) + OperationsTokens(rest)
    ensures p <= PREC_OR <= max && WellFormed(rhs, PREC_OR) && WellFormedOperations(rest, p, PREC_OR - 1) ==>
              WellFormedOperations(Or(rhs, rest), p, max)
  {
  }

  lemma EndWellFormed(p: nat, max: int)
    ensures WellFormedOperations(End, p, max)
  {
  }

  /** Tokens that are a chain written out parse to it. */
  lemma Parses(e: Expr, ts: seq<Token>)
    requires ts == Tokens(e) && WellFormed(e, PREC_ASSIGNMENT)
    ensures ExprAt(ts, PREC_ASSIGNMENT) == Parsed(e, [])
  {
    hide Tokens, WellFormed, ExprAt;
    assert ts == ts + [];
    ParsesChain(e, PREC_ASSIGNMENT, []);
  }

  // ---- two operators ----

  function Then(name: string, ops: Operations): Expr {
    Expr(Variable(name), ops)
  }

  lemma ThenWritten(name: string, ops: Operations, p: nat)
    ensures Tokens(Then(name, ops)) == [Identifier(name)] + OperationsTokens(ops)
    ensures WellFormedOperations(ops, p, PREC_FACTOR) ==> WellFormed(Then(name, ops), p)
  {
    TokensOf(Then(name, ops));
  }

  lemma LastBinary(op: BinaryOp, name: string, p: nat, max: int)
    requires p <= OperatorPrecedence(op) <= max
    ensures OperationsTokens(Binary(op, Name(name), End)) == [Operator(op), Identifier(name)]
    ensures WellFormedOperations(Binary(op, Name(name), End), p, max)
  {
    hide Tokens, WellFormed, OperationsTokens, WellFormedOperations, Name;
    NameWritten(name, OperatorPrecedence(op) + 1);
    EndWritten();
    EndWellFormed(p, OperatorPrecedence(op));
    BinaryWritten(op, Name(name), End, p, max);
  }

  /** The tokens of `a op b op' c`: the second operator takes the middle if it binds more tightly, and
      otherwise what is to its left. */
  lemma TwoOperators(a: string, op: BinaryOp, b: string, op': BinaryOp, c: string)
    ensures ExprAt([Identifier(a), Operator(op), Identifier(b), Operator(op'), Identifier(c)], PREC_ASSIGNMENT)
            == Parsed(if Precedence(Operator(op)) < Precedence(Operator(op'))
                      then Then(a, Binary(op, Then(b, Binary(op', Name(c), End)), End))
                      else Then(a, Binary(op, Name(b), Binary(op', Name(c), End))), [])
  {
    hide Tokens, WellFormed, OperationsTokens, WellFormedOperations, Name, Then, ExprAt;
    var p, q := OperatorPrecedence(op), OperatorPrecedence(op');
    EndWritten();
    if p < q {
      var right := Then(b, Binary(op', Name(c), End));
      LastBinary(op', c, p + 1, PREC_FACTOR);
      ThenWritten(b, Binary(op', Name(c), End), p + 1);
      EndWellFormed(PREC_ASSIGNMENT, p);
      BinaryWritten(op, right, End, PREC_ASSIGNMENT, PREC_FACTOR);
      ThenWritten(a, Binary(op, right, End), PREC_ASSIGNMENT);
      Parses(Then(a, Binary(op, right, End)), [Identifier(a), Operator(op), Identifier(b), Operator(op'), Identifier(c)]);
    } else {
      var rest := Binary(op', Name(c), End);
      LastBinary(op', c, PREC_ASSIGNMENT, p);
      NameWritten(b, p + 1);
      BinaryWritten(op, Name(b), rest, PREC_ASSIGNMENT, PREC_FACTOR);
      ThenWritten(a, Binary(op, Name(b), rest), PREC_ASSIGNMENT);
      Parses(Then(a, Binary(op, Name(b), rest)), [Identifier(a), Operator(op), Identifier(b), Operator(op'), Identifier(c)]);
    }
  }

  /** `a % b * c` is a remainder by a product. */
  lemma RemainderByProduct(a: string, b: string, c: string)
    ensures ExprAt([Identifier(a), Operator(Modulo), Identifier(b), Operator(Multiply), Identifier(c)], PREC_ASSIGNMENT)
            == Parsed(Expr(Variable(a), Binary(Modulo, Expr(Variable(b), Binary(Multiply, Expr(Variable(c), End), End)), End)), [])
  {
    hide ExprAt;
    TwoOperators(a, Modulo, b, Multiply, c);
  }

  /** `a - b - c` takes both from `a`, left to right. */
  lemma LeftToRight(a: string, b: string, c: string)
    ensures ExprAt([Identifier(a), Operator(Subtract), Identifier(b), Operator(Subtract), Identifier(c)], PREC_ASSIGNMENT)
            == Parsed(Expr(Variable(a), Binary(Subtract, Expr(Variable(b), End), Binary(Subtract, Expr(Variable(c), End), End))), [])
  {
    hide ExprAt;
    TwoOperators(a, Subtract, b, Subtract, c);
  }

  // ---- `and` and `or` ----

  lemma LastAnd(name: string, p: nat, max: int)
    requires p <= PREC_AND <= max
    ensures OperationsTokens(And(Name(name), End)) == [AndToken, Identifier(name)]
    ensures WellFormedOperations(And(Name(name), End), p, max)
  {
    hide Tokens, WellFormed, OperationsTokens, WellFormedOperations, Name;
    NameWritten(name, PREC_AND);
    EndWritten();
    EndWellFormed(p, PREC_AND - 1);
    AndWritten(Name(name), End, p, max);
  }

  lemma LastOr(name: string, p: nat, max: int)
    requires p <= PREC_OR <= max
    ensures OperationsTokens(Or(Name(name), End)) == [OrToken, Identifier(name)]
    ensures WellFormedOperations(Or(Name(name), End), p, max)
  {
    hide Tokens, WellFormed, OperationsTokens, WellFormedOperations, Name;
    NameWritten(name, PREC_OR);
    EndWritten();
    EndWellFormed(p, PREC_OR - 1);
    OrWritten(Name(name), End, p, max);
  }

  /** `a or b and c` is `a or (b and c)`. */
  lemma OrOfAnd(a: string, b: string, c: string)
    ensures ExprAt([Identifier(a), OrToken, Identifier(b), AndToken, Identifier(c)], PREC_ASSIGNMENT)
            == Parsed(Expr(Variable(a), Or(Expr(Variable(b), And(Expr(Variable(c), End), End)), End)), [])
  {
    hide Tokens, WellFormed, OperationsTokens, WellFormedOperations, ExprAt;
    var right := Then(b, And(Name(c), End));
    LastAnd(c, PREC_OR, PREC_FACTOR);
    ThenWritten(b, And(Name(c), End), PREC_OR);
    EndWritten();
    EndWellFormed(PREC_ASSIGNMENT, PREC_OR - 1);
    OrWritten(right, End, PREC_ASSIGNMENT, PREC_FACTOR);
    ThenWritten(a, Or(right, End), PREC_ASSIGNMENT);
    Parses(Then(a, Or(right, End)), [Identifier(a), OrToken, Identifier(b), AndToken, Identifier(c)]);
  }

  /** `a and b or c` is `(a and b) or c`. */
  lemma OrAfterAnd(a: string, b: string, c: string)
    ensures ExprAt([Identifier(a), AndToken, Identifier(b), OrToken, Identifier(c)], PREC_ASSIGNMENT)
            == Parsed(Expr(Variable(a), And(Expr(Variable(b), End), Or(Expr(Variable(c), End), End))), [])
  {
    hide Tokens, WellFormed, OperationsTokens, WellFormedOperations, ExprAt;
    var rest := Or(Name(c), End);
    LastOr(c, PREC_ASSIGNMENT, PREC_AND - 1);
    NameWritten(b, PREC_AND);
    AndWritten(Name(b), rest, PREC_ASSIGNMENT, PREC_FACTOR);
    ThenWritten(a, And(Name(b), rest), PREC_ASSIGNMENT);
    Parses(Then(a, And(Name(b), rest)), [Identifier(a), AndToken, Identifier(b), OrToken, Identifier(c)]);
  }

  /** `a and b op c` is `a and (b op c)`, for every binary operator. */
  lemma AndOfOperator(a: string, b: string, op: BinaryOp, c: string)
    ensures ExprAt([Identifier(a), AndToken, Identifier(b), Operator(op), Identifier(c)], PREC_ASSIGNMENT)
            == Parsed(Expr(Variable(a), And(Expr(Variable(b), Binary(op, Expr(Variable(c), End), End)), End)), [])
  {
    hide Tokens, WellFormed, OperationsTokens, WellFormedOperations, ExprAt;
    var right := Then(b, Binary(op, Name(c), End));
    LastBinary(op, c, PREC_AND, PREC_FACTOR);
    ThenWritten(b, Binary(op, Name(c), End), PREC_AND);
    EndWritten();
    EndWellFormed(PREC_ASSIGNMENT, PREC_AND - 1);
    AndWritten(right, End, PREC_ASSIGNMENT, PREC_FACTOR);
    ThenWritten(a, And(right, End), PREC_ASSIGNMENT);
    Parses(Then(a, And(right, End)), [Identifier(a), AndToken, Identifier(b), Operator(op), Identifier(c)]);
  }

  /** `a op b and c` is `(a op b) and c`, for every binary operator. */
  lemma OperatorBeforeAnd(a: string, op: BinaryOp, b: string, c: string)
    ensures ExprAt([Identifier(a), Operator(op), Identifier(b), AndToken, Identifier(c)], PREC_ASSIGNMENT)
            == Parsed(Expr(Variable(a), Binary(op, Expr(Variable(b), End), And(Expr(Variable(c), End), End))), [])
  {
    hide Tokens, WellFormed, OperationsTokens, WellFormedOperations, ExprAt;
    var rest := And(Name(c), End);
    LastAnd(c, PREC_ASSIGNMENT, OperatorPrecedence(op));
    NameWritten(b, OperatorPrecedence(op) + 1);
    BinaryWritten(op, Name(b), rest, PREC_ASSIGNMENT, PREC_FACTOR);
    ThenWritten(a, Binary(op, Name(b), rest), PREC_ASSIGNMENT);
    Parses(Then(a, Binary(op, Name(b), rest)), [Identifier(a), Operator(op), Identifier(b), AndToken, Identifier(c)]);
  }

  // ---- operands ----

  /** A unary operator takes the operand next to it and no more: `-a * b`, `!a == b`. */
  lemma UnaryBindsMost(a: string, op: BinaryOp, b: string)
    ensures ExprAt([Operator(Subtract), Identifier(a), Operator(op), Identifier(b)], PREC_ASSIGNMENT)
            == Parsed(Expr(Unary(Negate, Expr(Variable(a), End)), Binary(op, Expr(Variable(b), End), End)), [])
    ensures ExprAt([Bang, Identifier(a), Operator(op), Identifier(b)], PREC_ASSIGNMENT)
            == Parsed(Expr(Unary(Not, Expr(Variable(a), End)), Binary(op, Expr(Variable(b), End), End)), [])
  {
    hide Tokens, WellFormed, OperationsTokens, WellFormedOperations, ExprAt;
    var ops := Binary(op, Name(b), End);
    LastBinary(op, b, PREC_ASSIGNMENT, PREC_FACTOR);
    NameWritten(a, PREC_UNARY);
    var minus, not := Expr(Unary(Negate, Name(a)), ops), Expr(Unary(Not, Name(a)), ops);
    TokensOf(minus);
    TokensOf(not);
    WellFormedOf(minus, PREC_ASSIGNMENT);
    WellFormedOf(not, PREC_ASSIGNMENT);
    Parses(minus, [Operator(Subtract), Identifier(a), Operator(op), Identifier(b)]);
    Parses(not, [Bang, Identifier(a), Operator(op), Identifier(b)]);
  }

  /** `(a op b) op' c` keeps what is in parentheses together. */
  lemma Parentheses(a: string, op: BinaryOp, b: string, op': BinaryOp, c: string)
    ensures ExprAt([LeftParen, Identifier(a), Operator(op), Identifier(b), RightParen, Operator(op'), Identifier(c)], PREC_ASSIGNMENT)
            == Parsed(Expr(Grouping(Expr(Variable(a), Binary(op, Expr(Variable(b), End), End))),
                           Binary(op', Expr(Variable(c), End), End)), [])
  {
    hide Tokens, WellFormed, OperationsTokens, WellFormedOperations, ExprAt;
    var inner := Then(a, Binary(op, Name(b), End));
    LastBinary(op, b, PREC_ASSIGNMENT, PREC_FACTOR);
    ThenWritten(a, Binary(op, Name(b), End), PREC_ASSIGNMENT);
    LastBinary(op', c, PREC_ASSIGNMENT, PREC_FACTOR);
    var e := Expr(Grouping(inner), Binary(op', Name(c), End));
    TokensOf(e);
    WellFormedOf(e, PREC_ASSIGNMENT);
    Parses(e, [LeftParen, Identifier(a), Operator(op), Identifier(b), RightParen, Operator(op'), Identifier(c)]);
  }

  /** `a = b = c op d` assigns the result to `b`, and that to `a`. */
  lemma Assignments(a: string, b: string, c: string, op: BinaryOp, d: string)
    ensures ExprAt([Identifier(a), EqualSign, Identifier(b), EqualSign, Identifier(c), Operator(op), Identifier(d)], PREC_ASSIGNMENT)
            == Parsed(Expr(Assign(a, Expr(Assign(b, Expr(Variable(c), Binary(op, Expr(Variable(d), End), End))), End)), End), [])
  {
    hide Tokens, WellFormed, OperationsTokens, WellFormedOperations, ExprAt;
    var value := Then(c, Binary(op, Name(d), End));
    LastBinary(op, d, PREC_ASSIGNMENT, PREC_FACTOR);
    ThenWritten(c, Binary(op, Name(d), End), PREC_ASSIGNMENT);
    var inner := Expr(Assign(b, value), End);
    var outer := Expr(Assign(a, inner), End);
    EndWritten();
    TokensOf(inner);
    TokensOf(outer);
    AssignWellFormed(b, value);
    AssignWellFormed(a, inner);
    Parses(outer, [Identifier(a), EqualSign, Identifier(b), EqualSign, Identifier(c), Operator(op), Identifier(d)]);
  }

  lemma AssignWellFormed(name: string, value: Expr)
    requires WellFormed(value, PREC_ASSIGNMENT)
    ensures WellFormed(Expr(Assign(name, value), End), PREC_ASSIGNMENT)
  {
  }

  /** An assignment to anything but a name is an error: `a op b = c`. */
  lemma NoAssignmentToASum(a: string, op: BinaryOp, b: string, c: string)
    ensures ExprAt([Identifier(a), Operator(op), Identifier(b), EqualSign, Identifier(c)], PREC_ASSIGNMENT).SyntaxError?
  {
    var three := [EqualSign, Identifier(c)];
    var two := [Identifier(b)] + three;
    var one := [Operator(op)] + two;
    var ts := [Identifier(a)] + one;
    assert ts[1..] == one && one[1..] == two && two[1..] == three;
    var q := OperatorPrecedence(op) + 1;
    assert OperationsAt(three, q) == Parsed(End, three) == OperationsAt(three, PREC_ASSIGNMENT);
    assert OperandAt(two, false) == Parsed(Variable(b), three);
    assert ExprAt(two, q) == Parsed(Name(b), three);
    assert OperationsAt(one, PREC_ASSIGNMENT) == Parsed(Binary(op, Name(b), End), three);
    assert OperandAt(ts, true) == Parsed(Variable(a), one);
    assert ts == [Identifier(a), Operator(op), Identifier(b), EqualSign, Identifier(c)];
  }

  /** The literals. */
  lemma Literals(n: int)
    ensures ExprAt([NumberToken(n)], PREC_ASSIGNMENT) == Parsed(Expr(Number(n), End), [])
    ensures ExprAt([TrueToken], PREC_ASSIGNMENT) == Parsed(Expr(True, End), [])
    ensures ExprAt([FalseToken], PREC_ASSIGNMENT) == Parsed(Expr(False, End), [])
    ensures ExprAt([NilToken], PREC_ASSIGNMENT) == Parsed(Expr(NilLiteral, End), [])
  {
    LiteralParses(Number(n), NumberToken(n));
    LiteralParses(True, TrueToken);
    LiteralParses(False, FalseToken);
    LiteralParses(NilLiteral, NilToken);
  }

  lemma LiteralParses(o: Operand, t: Token)
    requires o.Number? || o.True? || o.False? || o.NilLiteral?
    requires OperandTokens(o) == [t]
    ensures ExprAt([t], PREC_ASSIGNMENT) == Parsed(Expr(o, End), [])
  {
    hide ExprAt;
    EndWritten();
    TokensOf(Expr(o, End));
    WellFormedOf(Expr(o, End), PREC_ASSIGNMENT);
    Parses(Expr(o, End), [t]);
  }
}
