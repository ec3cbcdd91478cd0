/** What the expressions of the subset are as tokens, and what the precedence parser makes of them
    (cyarg/parser.c): parsing undoes writing out, and accepts nothing else. */
module Grammar {
  import opened Language

  datatype Token =
    | NumberToken(n: int)
    | Identifier(name: string)
    | TrueToken
    | FalseToken
    | NilToken
    | LeftParen
    | RightParen
    | Bang
    | Operator(op: BinaryOp)
    | EqualSign
    | AndToken
    | OrToken
    | Other                      // no rule: it neither begins nor continues an expression
    | Eof

  // The levels of `Precedence`.
  const PREC_NONE := 0
  const PREC_ASSIGNMENT := 1
  const PREC_OR := 2
  const PREC_AND := 3
  const PREC_EQUALITY := 4
  const PREC_COMPARISON := 5
  const PREC_TERM := 6
  const PREC_FACTOR := 7
  const PREC_UNARY := 8
  const PREC_CALL := 9

  function OperatorPrecedence(op: BinaryOp): (p: nat)
    ensures PREC_EQUALITY <= p <= PREC_FACTOR
    ensures p == PREC_EQUALITY <==> op in {Equal, NotEqual}
    ensures p == PREC_COMPARISON <==> op in {Greater, GreaterEqual, Less, LessEqual}
    ensures p == PREC_TERM <==> op in {Add, Subtract, Modulo}
    ensures p == PREC_FACTOR <==> op in {Multiply, Divide}
  {
    match op
    case Equal => PREC_EQUALITY
    case NotEqual => PREC_EQUALITY
    case Greater => PREC_COMPARISON
    case GreaterEqual => PREC_COMPARISON
    case Less => PREC_COMPARISON
    case LessEqual => PREC_COMPARISON
    case Add => PREC_TERM
    case Subtract => PREC_TERM
    case Modulo => PREC_TERM
    case Multiply => PREC_FACTOR
    case Divide => PREC_FACTOR
  }

  /** The precedence of a token that continues an expression (the `rules` table). */
  function Precedence(t: Token): nat {
    match t
    case Operator(op) => OperatorPrecedence(op)
    case AndToken => PREC_AND
    case OrToken => PREC_OR
    case LeftParen => PREC_CALL
    case _ => PREC_NONE
  }

  /** The token at the cursor; the scanner goes on giving the end of the file. */
  function Current(ts: seq<Token>): Token {
    if ts == [] then Eof else ts[0]
  }

  function Next(ts: seq<Token>): seq<Token> {
    if ts == [] then [] else ts[1..]
  }

  // ---- writing a chain out ----

  function Tokens(e: Expr): seq<Token> {
    OperandTokens(e.first) + OperationsTokens(e.rest)
  }

  function OperandTokens(o: Operand): (s: seq<Token>)
    ensures |s| > 0
  {
    match o
    case Number(n) => [NumberToken(n)]
    case True => [TrueToken]
    case False => [FalseToken]
    case NilLiteral => [NilToken]
    case Grouping(e) => [LeftParen] + Tokens(e) + [RightParen]
    case Variable(name) => [Identifier(name)]
    case Assign(name, value) => [Identifier(name), EqualSign] + Tokens(value)
    case Unary(op, rhs) => [if op == Not then Bang else Operator(Subtract)] + Tokens(rhs)
  }

  function OperationsTokens(ops: Operations): seq<Token> {
    match ops
    case End => []
    case Binary(op, rhs, rest) => [Operator(op)] + Tokens(rhs) + OperationsTokens(rest)
    case And(rhs, rest) => [AndToken] + Tokens(rhs) + OperationsTokens(rest)
    case Or(rhs, rest) => [OrToken] + Tokens(rhs) + OperationsTokens(rest)
  }

  // ---- the chains of a precedence ----

  /** The chains that are expressions at precedence `p`: groupings hold any expression, only an
      expression that may be an assignment is one, and it ends there. */
  predicate WellFormed(e: Expr, p: nat) {
    WellFormedOperand(e.first, p) && WellFormedOperations(e.rest, p, if e.first.Assign? then PREC_NONE else PREC_FACTOR)
  }

  predicate WellFormedOperand(o: Operand, p: nat) {
    match o
    case Grouping(e) => WellFormed(e, PREC_ASSIGNMENT)
    case Assign(_, value) => p <= PREC_ASSIGNMENT && WellFormed(value, PREC_ASSIGNMENT)
    case Unary(_, rhs) => WellFormed(rhs, PREC_UNARY)
    case _ => true
  }

  /** Precedences along a chain lie between `p` and `max` and never increase; `and` and `or` take all
      that follows at their own level into their right operand. */
  predicate WellFormedOperations(ops: Operations, p: nat, max: int) {
    match ops
    case End => true
    case Binary(op, rhs, rest) =>
      var q := OperatorPrecedence(op);
      p <= q <= max && WellFormed(rhs, q + 1) && WellFormedOperations(rest, p, q)
    case And(rhs, rest) =>
      p <= PREC_AND <= max && WellFormed(rhs, PREC_AND) && WellFormedOperations(rest, p, PREC_AND - 1)
    case Or(rhs, rest) =>
      p <= PREC_OR <= max && WellFormed(rhs, PREC_OR) && WellFormedOperations(rest, p, PREC_OR - 1)
  }

  /** An expression at precedence `p` ends before these tokens. */
  predicate Stops(ts: seq<Token>, p: nat) {
    Precedence(Current(ts)) < p && (p <= PREC_ASSIGNMENT ==> Current(ts) != EqualSign)
  }

  // ---- parsing, as a function of the tokens ----

  datatype Result<+T> = Parsed(value: T, rest: seq<Token>) | SyntaxError

  function ExprAt(ts: seq<Token>, p: nat): (r: Result<Expr>)
    requires p > PREC_NONE
    ensures r.Parsed? ==> |r.rest| < |ts|
    decreases |ts|, 1
  {
    var first := OperandAt(ts, p <= PREC_ASSIGNMENT);
    if first.SyntaxError? then SyntaxError
    else
      var ops := OperationsAt(first.rest, p);
      if ops.SyntaxError? || (p <= PREC_ASSIGNMENT && Current(ops.rest) == EqualSign) then SyntaxError
      else Parsed(Expr(first.value, ops.value), ops.rest)
  }

  function OperandAt(ts: seq<Token>, canAssign: bool): (r: Result<Operand>)
    ensures r.Parsed? ==> |r.rest| < |ts|
    decreases |ts|, 0
  {
    if ts == [] then SyntaxError
    else
      var rest := ts[1..];
      match ts[0]
      case NumberToken(n) => Parsed(Number(n), rest)
      case TrueToken => Parsed(True, rest)
      case FalseToken => Parsed(False, rest)
      case NilToken => Parsed(NilLiteral, rest)
      case Identifier(name) =>
        if canAssign && Current(rest) == EqualSign then
          var v := ExprAt(rest[1..], PREC_ASSIGNMENT);
          if v.SyntaxError? then SyntaxError else Parsed(Assign(name, v.value), v.rest)
        else Parsed(Variable(name), rest)
      case LeftParen =>
        var e := ExprAt(rest, PREC_ASSIGNMENT);
        if e.SyntaxError? || Current(e.rest) != RightParen then SyntaxError else Parsed(Grouping(e.value), e.rest[1..])
      case Bang => UnaryAt(Not, rest)
      case Operator(op) => if op == Subtract then UnaryAt(Negate, rest) else SyntaxError
      case _ => SyntaxError
  }

  function UnaryAt(op: UnaryOp, ts: seq<Token>): (r: Result<Operand>)
    ensures r.Parsed? ==> |r.rest| < |ts|
    decreases |ts|, 2
  {
    var rhs := ExprAt(ts, PREC_UNARY);
    if rhs.SyntaxError? then SyntaxError else Parsed(Unary(op, rhs.value), rhs.rest)
  }

  function OperationsAt(ts: seq<Token>, p: nat): (r: Result<Operations>)
    requires p > PREC_NONE
    ensures r.Parsed? ==> |r.rest| <= |ts|
    decreases |ts|, 0
  {
    if Precedence(Current(ts)) < p then Parsed(End, ts)
    else if ts[0] == LeftParen then SyntaxError        // calls are not in the subset
    else
      var rhs := ExprAt(ts[1..], OperandPrecedence(ts[0]));
      if rhs.SyntaxError? then SyntaxError
      else
        var rest := OperationsAt(rhs.rest, p);
        if rest.SyntaxError? then SyntaxError
        else Parsed(Link(ts[0], rhs.value, rest.value), rest.rest)
  }

  /** The link of a chain that begins with this token. */
  function Link(t: Token, rhs: Expr, rest: Operations): Operations {
    match t
    case Operator(op) => Binary(op, rhs, rest)
    case AndToken => And(rhs, rest)
    case _ => Or(rhs, rest)
  }

  /** The precedence at which the right operand of an operator is parsed. */
  function OperandPrecedence(t: Token): (p: nat)
    ensures p > PREC_NONE
  {
    match t
    case Operator(op) => OperatorPrecedence(op) + 1
    case AndToken => PREC_AND
    case _ => PREC_OR
  }

  // ---- parsing undoes writing out ----

  lemma {:induction false} ParsesChain(e: Expr, p: nat, rest: seq<Token>)
    requires PREC_NONE < p <= PREC_UNARY && WellFormed(e, p) && Stops(rest, p)
    ensures ExprAt(Tokens(e) + rest, p) == Parsed(e, rest)
    decreases e, 1
  {
    hide OperandAt, OperationsAt, OperandTokens, OperationsTokens;
    var tail := OperationsTokens(e.rest) + rest;
    assert Tokens(e) + rest == OperandTokens(e.first) + tail;
    var max := if e.first.Assign? then PREC_NONE else PREC_FACTOR;
    TailStops(e.rest, p, max, rest);
    ParsesOperand(e.first, p, tail);
    ParsesOperations(e.rest, p, max, rest);
  }

  /** What follows the operand of a chain cannot be taken for a part of it. */
  lemma TailStops(ops: Operations, p: nat, max: int, rest: seq<Token>)
    requires WellFormedOperations(ops, p, max) && Stops(rest, p)
    ensures var tail := OperationsTokens(ops) + rest;
            && (Precedence(Current(tail)) <= max || Precedence(Current(tail)) < p)
            && (p <= PREC_ASSIGNMENT ==> Current(tail) != EqualSign)
    ensures ops.End? || Current(OperationsTokens(ops) + rest) != EqualSign
  {
  }

  lemma {:induction false} ParsesOperand(o: Operand, p: nat, tail: seq<Token>)
    requires PREC_NONE < p <= PREC_UNARY && WellFormedOperand(o, p)
    requires p <= PREC_ASSIGNMENT ==> Current(tail) != EqualSign
    requires Precedence(Current(tail)) < PREC_UNARY
    requires o.Assign? ==> Precedence(Current(tail)) < PREC_ASSIGNMENT
    ensures OperandAt(OperandTokens(o) + tail, p <= PREC_ASSIGNMENT) == Parsed(o, tail)
    decreases o, 0
  {
    hide ExprAt, Tokens, OperationsAt;
    var ts := OperandTokens(o) + tail;
    match o
    case Grouping(e) =>
      assert ts[1..] == Tokens(e) + ([RightParen] + tail);
      ParsesChain(e, PREC_ASSIGNMENT, [RightParen] + tail);
      assert ([RightParen] + tail)[1..] == tail;
    case Assign(name, value) =>
      assert ts[1..][1..] == Tokens(value) + tail;
      ParsesChain(value, PREC_ASSIGNMENT, tail);
    case Unary(op, rhs) =>
      assert ts[1..] == Tokens(rhs) + tail;
      ParsesChain(rhs, PREC_UNARY, tail);
    case Variable(name) =>
      assert ts[1..] == tail;
    case _ =>
      assert ts[1..] == tail;
  }

  lemma {:induction false} ParsesOperations(ops: Operations, p: nat, max: int, rest: seq<Token>)
    requires PREC_NONE < p <= PREC_UNARY && WellFormedOperations(ops, p, max) && Stops(rest, p)
    ensures OperationsAt(OperationsTokens(ops) + rest, p) == Parsed(ops, rest)
    decreases ops, 1
  {
    hide ExprAt, Tokens, OperandAt;
    match ops
    case End =>
      assert OperationsTokens(ops) + rest == rest;
    case Binary(op, _, _) => ParsesLink(ops, Operator(op), p, OperatorPrecedence(op), rest);
    case And(_, _) => ParsesLink(ops, AndToken, p, PREC_AND - 1, rest);
    case Or(_, _) => ParsesLink(ops, OrToken, p, PREC_OR - 1, rest);
  }

  /** One operator of a chain, its right operand and the links after it. */
  lemma {:induction false} ParsesLink(ops: Operations, t: Token, p: nat, max: int, rest: seq<Token>)
    requires PREC_NONE < p <= PREC_UNARY && !ops.End? && ops == Link(t, ops.rhs, ops.rest) && Stops(rest, p)
    requires t.Operator? || t.AndToken? || t.OrToken?
    requires p <= Precedence(t) && max == OperandPrecedence(t) - 1
    requires WellFormed(ops.rhs, OperandPrecedence(t)) && WellFormedOperations(ops.rest, p, max)
    ensures OperationsAt(OperationsTokens(ops) + rest, p) == Parsed(ops, rest)
    decreases ops, 0
  {
    hide ExprAt, Tokens, OperationsTokens, WellFormed, WellFormedOperations;
    var ts := OperationsTokens(ops) + rest;
    var tail := OperationsTokens(ops.rest) + rest;
    LinkTokens(ops, t, rest);
    TailStops(ops.rest, p, max, rest);
    ParsesChain(ops.rhs, OperandPrecedence(t), tail);
    ParsesOperations(ops.rest, p, max, rest);
  }

  lemma LinkTokens(ops: Operations, t: Token, rest: seq<Token>)
    requires !ops.End? && ops == Link(t, ops.rhs, ops.rest) && (t.Operator? || t.AndToken? || t.OrToken?)
    ensures var ts := OperationsTokens(ops) + rest;
            |ts| > 0 && ts[0] == t && ts[1..] == Tokens(ops.rhs) + (OperationsTokens(ops.rest) + rest)
  {
    hide Tokens;
    assert OperationsTokens(ops) == [t] + Tokens(ops.rhs) + OperationsTokens(ops.rest);
    Regroup(t, Tokens(ops.rhs), OperationsTokens(ops.rest), rest);
  }

  lemma Regroup(t: Token, a: seq<Token>, b: seq<Token>, c: seq<Token>)
    ensures var s := [t] + a + b + c; |s| > 0 && s[0] == t && s[1..] == a + (b + c)
  {
  }

  // ---- and nothing else is parsed ----

  /** What was consumed is the chain written out, it is one of this precedence, and parsing could
      not have gone on. */
  lemma {:induction false} ParsedIsChain(ts: seq<Token>, p: nat)
    requires PREC_NONE < p <= PREC_UNARY
    ensures var r := ExprAt(ts, p);
            r.Parsed? ==> ts == Tokens(r.value) + r.rest && WellFormed(r.value, p) && Stops(r.rest, p)
    decreases |ts|, 1
  {
    hide OperandAt, OperationsAt, OperandTokens, OperationsTokens, WellFormedOperand, WellFormedOperations;
    var r := ExprAt(ts, p);
    if r.Parsed? {
      var first := OperandAt(ts, p <= PREC_ASSIGNMENT);
      ParsedOperand(ts, p);
      ParsedOperations(first.rest, p, if first.value.Assign? then PREC_NONE else PREC_FACTOR);
      assert ts == OperandTokens(first.value) + (OperationsTokens(r.value.rest) + r.rest);
    }
  }

  lemma {:induction false} ParsedOperand(ts: seq<Token>, p: nat)
    requires PREC_NONE < p <= PREC_UNARY
    ensures var r := OperandAt(ts, p <= PREC_ASSIGNMENT);
            r.Parsed? ==>
              && ts == OperandTokens(r.value) + r.rest && WellFormedOperand(r.value, p)
              && (r.value.Assign? ==> Precedence(Current(r.rest)) < PREC_ASSIGNMENT)
    decreases |ts|, 0
  {
    hide ExprAt, Tokens, OperandAt, OperandTokens, WellFormed, WellFormedOperand;
    var r := OperandAt(ts, p <= PREC_ASSIGNMENT);
    if r.Parsed? {
      FirstToken(ts, p <= PREC_ASSIGNMENT);
      var rest := ts[1..];
      match ts[0]
      case Identifier(name) =>
        if p <= PREC_ASSIGNMENT && Current(rest) == EqualSign {
          ParsedIsChain(rest[1..], PREC_ASSIGNMENT);
        }
        NamedTokens(ts, name, p);
      case LeftParen =>
        ParsedIsChain(rest, PREC_ASSIGNMENT);
        GroupedTokens(ts, p);
      case Bang =>
        ParsedIsChain(rest, PREC_UNARY);
        UnaryTokens(ts, Not, p);
      case Operator(_) =>
        ParsedIsChain(rest, PREC_UNARY);
        UnaryTokens(ts, Negate, p);
      case _ => LiteralTokens(ts, p);
    }
  }

  /** The operand that was found is one of this precedence, written out. */
  ghost predicate OperandFound(ts: seq<Token>, r: Result<Operand>, p: nat) {
    r.Parsed? ==>
      && ts == OperandTokens(r.value) + r.rest && WellFormedOperand(r.value, p)
      && (r.value.Assign? ==> Precedence(Current(r.rest)) < PREC_ASSIGNMENT)
  }

  ghost predicate ChainFound(ts: seq<Token>, p: nat)
    requires p > PREC_NONE
  {
    var r := ExprAt(ts, p);
    r.Parsed? ==> ts == Tokens(r.value) + r.rest && WellFormed(r.value, p) && Stops(r.rest, p)
  }

  lemma FirstToken(ts: seq<Token>, canAssign: bool)
    requires OperandAt(ts, canAssign).Parsed?
    ensures |ts| > 0 && (ts[0].Operator? ==> ts[0] == Operator(Subtract))
    ensures ts[0].NumberToken? || ts[0].Identifier? || ts[0] in {TrueToken, FalseToken, NilToken, LeftParen, Bang} || ts[0].Operator?
  {
    hide ExprAt;
  }

  lemma NamedTokens(ts: seq<Token>, name: string, p: nat)
    requires PREC_NONE < p && |ts| > 0 && ts[0] == Identifier(name)
    requires p <= PREC_ASSIGNMENT && Current(ts[1..]) == EqualSign ==> ChainFound(ts[1..][1..], PREC_ASSIGNMENT)
    ensures OperandFound(ts, OperandAt(ts, p <= PREC_ASSIGNMENT), p)
  {
    hide ExprAt, Tokens, WellFormed, Stops, Precedence;
    var rest := ts[1..];
    if p <= PREC_ASSIGNMENT && Current(rest) == EqualSign {
      StopsAssigned(ExprAt(rest[1..], PREC_ASSIGNMENT));
      assert ts == [Identifier(name), EqualSign] + rest[1..];
    } else {
      assert ts == [ts[0]] + rest;
    }
  }

  lemma StopsAssigned(r: Result<Expr>)
    ensures r.Parsed? && Stops(r.rest, PREC_ASSIGNMENT) ==> Precedence(Current(r.rest)) < PREC_ASSIGNMENT
  {
  }

  lemma GroupedTokens(ts: seq<Token>, p: nat)
    requires PREC_NONE < p && |ts| > 0 && ts[0] == LeftParen && ChainFound(ts[1..], PREC_ASSIGNMENT)
    ensures OperandFound(ts, OperandAt(ts, p <= PREC_ASSIGNMENT), p)
  {
    hide ExprAt, Tokens, WellFormed, Stops;
    var r := OperandAt(ts, p <= PREC_ASSIGNMENT);
    if r.Parsed? {
      var e := ExprAt(ts[1..], PREC_ASSIGNMENT);
      Brackets(ts, Tokens(e.value), e.rest);
    }
  }

  lemma Brackets(ts: seq<Token>, inner: seq<Token>, rest: seq<Token>)
    requires |ts| > 0 && ts[1..] == inner + rest && |rest| > 0
    ensures ts == [ts[0]] + inner + [rest[0]] + rest[1..]
  {
    assert ts == [ts[0]] + ts[1..];
    assert rest == [rest[0]] + rest[1..];
  }

  lemma UnaryTokens(ts: seq<Token>, op: UnaryOp, p: nat)
    requires PREC_NONE < p && |ts| > 0 && ts[0] == (if op == Not then Bang else Operator(Subtract)) && ChainFound(ts[1..], PREC_UNARY)
    ensures OperandFound(ts, OperandAt(ts, p <= PREC_ASSIGNMENT), p)
  {
    hide ExprAt, Tokens, WellFormed, OperandAt, OperandTokens, Stops;
    UnaryFound(ts, op, p <= PREC_ASSIGNMENT);
    var rhs := ExprAt(ts[1..], PREC_UNARY);
    if rhs.Parsed? {
      UnaryWritten(ts, op, rhs.value, rhs.rest);
    }
  }

  lemma UnaryWritten(ts: seq<Token>, op: UnaryOp, e: Expr, rest: seq<Token>)
    requires |ts| > 0 && ts[0] == (if op == Not then Bang else Operator(Subtract)) && ts[1..] == Tokens(e) + rest
    ensures ts == OperandTokens(Unary(op, e)) + rest
  {
    hide Tokens;
    assert ts == [ts[0]] + ts[1..];
    assert OperandTokens(Unary(op, e)) == [ts[0]] + Tokens(e);
  }

  lemma UnaryFound(ts: seq<Token>, op: UnaryOp, canAssign: bool)
    requires |ts| > 0 && ts[0] == (if op == Not then Bang else Operator(Subtract))
    ensures OperandAt(ts, canAssign) == UnaryAt(op, ts[1..])
  {
    hide ExprAt, UnaryAt;
  }

  lemma LiteralTokens(ts: seq<Token>, p: nat)
    requires PREC_NONE < p && |ts| > 0 && (ts[0].NumberToken? || ts[0] in {TrueToken, FalseToken, NilToken})
    ensures OperandFound(ts, OperandAt(ts, p <= PREC_ASSIGNMENT), p)
  {
    assert ts == [ts[0]] + ts[1..];
  }

  lemma {:induction false} ParsedOperations(ts: seq<Token>, p: nat, max: int)
    requires PREC_NONE < p <= PREC_UNARY && (Precedence(Current(ts)) <= max || Precedence(Current(ts)) < p || Current(ts) == LeftParen)
    ensures var r := OperationsAt(ts, p);
            r.Parsed? ==>
              ts == OperationsTokens(r.value) + r.rest && WellFormedOperations(r.value, p, max) && Precedence(Current(r.rest)) < p
    decreases |ts|, 0
  {
    hide ExprAt, Tokens, WellFormed, OperationsTokens, OperationsAt, WellFormedOperations, Link;
    var r := OperationsAt(ts, p);
    if r.Parsed? {
      if Precedence(Current(ts)) < p {
        NoTokens(ts, p, max);
      } else {
        LinkParsed(ts, p);
        var q := OperandPrecedence(ts[0]);
        var rhs := ExprAt(ts[1..], q);
        ParsedIsChain(ts[1..], q);
        ParsedOperations(rhs.rest, p, q - 1);
        var rest := OperationsAt(rhs.rest, p);
        LinkWellFormed(ts[0], rhs.value, rest.value, p, max);
        LinkTokens(r.value, ts[0], r.rest);
        assert ts == [ts[0]] + ts[1..];
      }
    }
  }

  /** What one round of the loop has found. */
  lemma LinkParsed(ts: seq<Token>, p: nat)
    requires PREC_NONE < p <= Precedence(Current(ts)) && OperationsAt(ts, p).Parsed?
    ensures |ts| > 0 && (ts[0].Operator? || ts[0].AndToken? || ts[0].OrToken?)
    ensures var rhs := ExprAt(ts[1..], OperandPrecedence(ts[0]));
            && rhs.Parsed?
            && var rest := OperationsAt(rhs.rest, p);
               rest.Parsed? && OperationsAt(ts, p) == Parsed(Link(ts[0], rhs.value, rest.value), rest.rest)
  {
    hide ExprAt, Link;
  }

  lemma LinkWellFormed(t: Token, rhs: Expr, rest: Operations, p: nat, max: int)
    requires (t.Operator? || t.AndToken? || t.OrToken?) && p <= Precedence(t) <= max
    requires WellFormed(rhs, OperandPrecedence(t)) && WellFormedOperations(rest, p, OperandPrecedence(t) - 1)
    ensures WellFormedOperations(Link(t, rhs, rest), p, max)
    ensures var ops := Link(t, rhs, rest); !ops.End? && ops.rhs == rhs && ops.rest == rest
  {
    hide WellFormed;
  }

  lemma NoTokens(ts: seq<Token>, p: nat, max: int)
    requires PREC_NONE < p && Precedence(Current(ts)) < p
    ensures OperationsAt(ts, p) == Parsed(End, ts)
    ensures OperationsTokens(End) + ts == ts && WellFormedOperations(End, p, max)
  {
  }

  /** Parsing succeeds exactly on the chains of this precedence, written out and properly ended, and
      gives them back. */
  lemma ParsesExactly(ts: seq<Token>, p: nat, e: Expr, rest: seq<Token>)
    requires PREC_NONE < p <= PREC_UNARY
    ensures ExprAt(ts, p) == Parsed(e, rest) <==> ts == Tokens(e) + rest && WellFormed(e, p) && Stops(rest, p)
  {
    if ts == Tokens(e) + rest && WellFormed(e, p) && Stops(rest, p) {
      ParsesChain(e, p, rest);
    } else {
      ParsedIsChain(ts, p);
    }
  }
}
