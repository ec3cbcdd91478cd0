/** The expression parser as it works (cyarg/parser.c): a current token, one method for each kind of
    token, and a chain that grows link by link.  It computes what `Grammar` says. */
module Parser {
  import opened Language
  import opened Grammar

  /** The links found so far, in front of those still to come. */
  function Attach(links: seq<(Token, Expr)>, ops: Operations): Operations {
    if links == [] then ops else Link(links[0].0, links[0].1, Attach(links[1..], ops))
  }

  lemma {:induction false} AttachLast(links: seq<(Token, Expr)>, l: (Token, Expr), ops: Operations)
    ensures Attach(links + [l], ops) == Attach(links, Link(l.0, l.1, ops))
  {
    if links == [] {
      assert [l][1..] == [] && Attach([], ops) == ops;
    } else {
      assert (links + [l])[1..] == links[1..] + [l];
      AttachLast(links[1..], l, ops);
    }
  }

  function AttachAll(links: seq<(Token, Expr)>, r: Grammar.Result<Operations>): Grammar.Result<Operations> {
    if r.SyntaxError? then SyntaxError else Parsed(Attach(links, r.value), r.rest)
  }

  class Parser {
    var current: Token
    var previous: Token
    var scanner: seq<Token>                // what the scanner has still to deliver
    var errors: seq<string>
    var panicMode: bool

    ghost predicate Valid()
      reads this
    {
      Eof !in scanner && (current == Eof ==> scanner == []) && (panicMode ==> errors != [])
    }

    /** The tokens from the current one on. */
    ghost function Remaining(): seq<Token>
      reads this
    {
      if current == Eof then [] else [current] + scanner
    }

    /** The outcome of parsing what was left: the value and where it ends, or an error. */
    ghost predicate Agrees<T>(was: bool, r: Option<T>, spec: Grammar.Result<T>)
      reads this
    {
      match spec
      case SyntaxError => r.None? && errors != []
      case Parsed(v, rest) => r == Some(v) && Remaining() == rest && (errors == [] <==> was)
    }

    constructor (tokens: seq<Token>)
      requires Eof !in tokens
      ensures Valid() && Remaining() == tokens && errors == []
    {
      previous, errors, panicMode := Eof, [], false;
      current := Current(tokens);
      scanner := Next(tokens);
    }

    method ErrorAt(message: string)
      modifies `errors, `panicMode
      requires Valid()
      ensures Valid() && errors != []
    {
      if panicMode {
        return;
      }
      panicMode := true;
      errors := errors + [message];
    }

    method Advance()
      requires Valid()
      modifies `current, `previous, `scanner
      ensures Valid() && previous == old(current) == Current(old(Remaining())) && Remaining() == Next(old(Remaining()))
    {
      previous := current;
      current := Current(scanner);
      scanner := Next(scanner);
    }

    method Match(t: Token) returns (matched: bool)
      requires Valid() && t != Eof
      modifies `current, `previous, `scanner
      ensures Valid() && matched == (Current(old(Remaining())) == t)
      ensures Remaining() == if matched then old(Remaining())[1..] else old(Remaining())
    {
      matched := current == t;
      if matched {
        Advance();
      }
    }

    method ParsePrecedence(precedence: nat) returns (r: Option<Expr>)
      requires Valid() && precedence > PREC_NONE
      modifies this
      ensures Valid() && Agrees(old(errors) == [], r, ExprAt(old(Remaining()), precedence))
      decreases |Remaining()|, 2
    {
      var canAssign := precedence <= PREC_ASSIGNMENT;
      var first := ParsePrefix(canAssign);
      if first.None? {
        return None;
      }
      var ops := ParseInfix(precedence);
      if ops.None? {
        return None;
      }
      if canAssign {
        var assign := Match(EqualSign);
        if assign {
          ErrorAt("Invalid assignment target.");
          return None;
        }
      }
      r := Some(Expr(first.value, ops.value));
    }

    /** The rule of a token that begins an expression. */
    method ParsePrefix(canAssign: bool) returns (r: Option<Operand>)
      requires Valid()
      modifies this
      ensures Valid() && Agrees(old(errors) == [], r, OperandAt(old(Remaining()), canAssign))
      decreases |Remaining()|, 1
    {
      Advance();
      match previous
      case NumberToken(n) => r := Some(Number(n));
      case TrueToken => r := Some(True);
      case FalseToken => r := Some(False);
      case NilToken => r := Some(NilLiteral);
      case Identifier(name) => r := NamedVariable(name, canAssign);
      case LeftParen => r := ParseGrouping();
      case Bang => r := ParseUnary(Not);
      case Operator(op) =>
        if op == Subtract {
          r := ParseUnary(Negate);
        } else {
          ErrorAt("Expect expression.");
          r := None;
        }
      case _ =>
        ErrorAt("Expect expression.");
        r := None;
    }

    method NamedVariable(name: string, canAssign: bool) returns (r: Option<Operand>)
      requires Valid()
      modifies this
      ensures Valid()
      ensures Agrees(old(errors) == [], r, OperandAt([Identifier(name)] + old(Remaining()), canAssign))
      decreases |Remaining()|, 3
    {
      ghost var ts := [Identifier(name)] + Remaining();
      assert ts[1..] == Remaining();
      r := Some(Variable(name));
      if canAssign {
        var assign := Match(EqualSign);
        if assign {
          var value := ParsePrecedence(PREC_ASSIGNMENT);
          r := if value.None? then None else Some(Assign(name, value.value));
        }
      }
    }

    method ParseGrouping() returns (r: Option<Operand>)
      requires Valid()
      modifies this
      ensures Valid()
      ensures Agrees(old(errors) == [], r, OperandAt([LeftParen] + old(Remaining()), true))
      decreases |Remaining()|, 3
    {
      assert ([LeftParen] + Remaining())[1..] == Remaining();
      var e := ParsePrecedence(PREC_ASSIGNMENT);
      if e.None? {
        return None;
      }
      var closed := Match(RightParen);
      if !closed {
        ErrorAt("Expect ')' after expression.");
        return None;
      }
      r := Some(Grouping(e.value));
    }

    method ParseUnary(op: UnaryOp) returns (r: Option<Operand>)
      requires Valid()
      modifies this
      ensures Valid() && Agrees(old(errors) == [], r, UnaryAt(op, old(Remaining())))
      decreases |Remaining()|, 3
    {
      var rhs := ParsePrecedence(PREC_UNARY);
      r := if rhs.None? then None else Some(Unary(op, rhs.value));
    }

    /** Tokens that continue the expression, as long as they bind at least as tightly. */
    method ParseInfix(precedence: nat) returns (r: Option<Operations>)
      requires Valid() && precedence > PREC_NONE
      modifies this
      ensures Valid() && Agrees(old(errors) == [], r, OperationsAt(old(Remaining()), precedence))
      decreases |Remaining()|, 1
    {
      var links: seq<(Token, Expr)> := [];
      while precedence <= Precedence(current)
        invariant Valid() && |Remaining()| <= |old(Remaining())| && (errors == [] <==> old(errors) == [])
        invariant OperationsAt(old(Remaining()), precedence) == AttachAll(links, OperationsAt(Remaining(), precedence))
        decreases |Remaining()|
      {
        ghost var ts := Remaining();
        Advance();
        var t := previous;
        if t == LeftParen {
          ErrorAt("Calls are not in the subset.");
          return None;
        }
        var rhs := ParsePrecedence(OperandPrecedence(t));
        if rhs.None? {
          return None;
        }
        ghost var rest := OperationsAt(Remaining(), precedence);
        if rest.Parsed? {
          AttachLast(links, (t, rhs.value), rest.value);
        }
        links := links + [(t, rhs.value)];
      }
      r := Some(Attach(links, End));
    }
  }
}
