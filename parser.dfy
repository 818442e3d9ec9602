/** The Pratt (precedence-climbing) parser of src/parser.rs.

    Each token has a null denotation (`nud`, how it starts a term), a left
    denotation (`led`, how it continues after a left operand) and a left
    binding power (`lbp`).  `expression(rbp)` parses one term and then keeps
    folding operators into it while the next token binds tighter than `rbp`.

    The source threads one mutable token cursor through all of these.  The
    functions below (`ExprAt`, `ParseNudAt`, `NudOf`, `LoopAt`, `ParseLedAt`,
    `LedOf`) pass the cursor position explicitly and return the position
    after the parsed part; the class `Parser` keeps the cursor in a field, as
    the source does, and its methods are proved to compute those functions. */
module Parsing {
  import opened Results
  import opened Lexing

  /** The syntax tree.  A binary node keeps the operator token itself. */
  datatype Expr =
    | Unary(operand: Expr)
    | Binary(left: Expr, op: Token, right: Expr)
    | Literal(n: int)

  /** The five tokens that have a left denotation. */
  predicate IsOperator(t: Token) {
    t == Times || t == Divide || t == Plus || t == Minus || t == Pow
  }

  /** Left binding power: `^` 30, `*` and `/` 20, `+` and `-` 10, every other
      token 0.  It is positive exactly for the operators and never above 30. */
  function Lbp(t: Token): (bp: nat)
    ensures bp > 0 <==> IsOperator(t)
    ensures bp <= 30
  {
    match t
    case Pow => 30
    case Times | Divide => 20
    case Plus | Minus => 10
    case _ => 0
  }

  /** Every binary node carries one of the five operators. */
  predicate WellFormed(e: Expr) {
    match e
    case Literal(_) => true
    case Unary(x) => WellFormed(x)
    case Binary(l, op, r) => WellFormed(l) && IsOperator(op) && WellFormed(r)
  }

  /** `next_binds_tighter_than`: a token is ahead and its binding power
      exceeds `rbp`.  It looks at the token without consuming it. */
  predicate NextBindsTighterThan(toks: seq<Token>, pos: nat, rbp: nat)
    requires pos <= |toks|
    ensures NextBindsTighterThan(toks, pos, rbp) ==> pos < |toks| && IsOperator(toks[pos])
    ensures rbp >= 30 ==> !NextBindsTighterThan(toks, pos, rbp)
  {
    pos < |toks| && Lbp(toks[pos]) > rbp
  }

  /** Where `expression(rbp)` may stop: at the end, or before a token that
      does not bind tighter than `rbp`. */
  predicate StopsAt(toks: seq<Token>, pos: nat, rbp: nat)
    requires pos <= |toks|
  {
    !NextBindsTighterThan(toks, pos, rbp)
  }

  /** A parsed expression and the cursor position after it. */
  datatype Parsed = Parsed(e: Expr, next: nat)

  /** `expression(rbp)` started at `pos`. */
  function ExprAt(toks: seq<Token>, pos: nat, rbp: nat): (r: Result<Parsed>)
    requires pos <= |toks|
    ensures r.Ok? ==> pos < r.value.next <= |toks| && StopsAt(toks, r.value.next, rbp)
    ensures r.Ok? ==> WellFormed(r.value.e)
    ensures r.Err? ==> r.error in {Incomplete, ExpectingLiteral, UnbalancedParens}
    decreases |toks| - pos, 3
  {
    var first :- ParseNudAt(toks, pos);
    LoopAt(toks, first.e, first.next, rbp)
  }

  /** The loop of `expression`: fold operators into `left` while the next
      token binds tighter than `rbp`. */
  function LoopAt(toks: seq<Token>, left: Expr, pos: nat, rbp: nat): (r: Result<Parsed>)
    requires pos <= |toks|
    ensures r.Ok? ==> pos <= r.value.next <= |toks| && StopsAt(toks, r.value.next, rbp)
    ensures r.Ok? && WellFormed(left) ==> WellFormed(r.value.e)
    ensures r.Err? ==> r.error in {Incomplete, ExpectingLiteral, UnbalancedParens}
    decreases |toks| - pos, 2
  {
    if NextBindsTighterThan(toks, pos, rbp) then
      var folded :- ParseLedAt(toks, left, pos);
      LoopAt(toks, folded.e, folded.next, rbp)
    else
      Ok(Parsed(left, pos))
  }

  /** `parse_nud`: take the next token and apply its null denotation. */
  function ParseNudAt(toks: seq<Token>, pos: nat): (r: Result<Parsed>)
    requires pos <= |toks|
    ensures r.Ok? ==> pos < r.value.next <= |toks|
    ensures r.Ok? ==> WellFormed(r.value.e)
    ensures r.Err? ==> r.error in {Incomplete, ExpectingLiteral, UnbalancedParens}
    ensures pos == |toks| ==> r == Err(Incomplete)
    decreases |toks| - pos, 2
  {
    if pos == |toks| then Err(Incomplete) else NudOf(toks, toks[pos], pos + 1)
  }

  /** `parse_led`: take the next token and apply its left denotation to
      `left`. */
  function ParseLedAt(toks: seq<Token>, left: Expr, pos: nat): (r: Result<Parsed>)
    requires pos <= |toks|
    ensures r.Ok? ==> pos < r.value.next <= |toks|
    ensures r.Ok? && WellFormed(left) ==> WellFormed(r.value.e)
    ensures r.Err? ==> r.error != NegativePower
    ensures NextBindsTighterThan(toks, pos, 0) ==> r != Err(ExpectingOperator)
    ensures pos == |toks| ==> r == Err(Incomplete)
    decreases |toks| - pos, 1
  {
    if pos == |toks| then Err(Incomplete) else LedOf(toks, toks[pos], left, pos + 1)
  }

  /** `Token::nud`, with the cursor at `pos`, just after `t`. */
  function NudOf(toks: seq<Token>, t: Token, pos: nat): (r: Result<Parsed>)
    requires pos <= |toks|
    ensures r.Ok? ==> pos <= r.value.next <= |toks|
    ensures r.Ok? ==> WellFormed(r.value.e)
    ensures r.Err? ==> r.error in {Incomplete, ExpectingLiteral, UnbalancedParens}
    decreases |toks| - pos + 1, 0
  {
    match t
    case Integer(n) => Ok(Parsed(Literal(n), pos))
    case Minus =>
      var operand :- ExprAt(toks, pos, 100);
      Ok(Parsed(Unary(operand.e), operand.next))
    case LParen =>
      var inner :- ExprAt(toks, pos, 0);
      if inner.next < |toks| && toks[inner.next] == RParen then
        Ok(Parsed(inner.e, inner.next + 1))
      else
        Err(UnbalancedParens)
    case _ => Err(ExpectingLiteral)
  }

  /** The binding power the right operand of `t` is parsed with: the
      operator's own for the left-associative ones, one less for `^`, which
      is right-associative. */
  function RightBp(t: Token): (bp: nat)
    requires IsOperator(t)
    ensures bp <= Lbp(t)
    ensures bp < Lbp(t) <==> t == Pow
  {
    if t == Pow then Lbp(t) - 1 else Lbp(t)
  }

  /** `Token::led`, with the cursor at `pos`, just after `t`. */
  function LedOf(toks: seq<Token>, t: Token, left: Expr, pos: nat): (r: Result<Parsed>)
    requires pos <= |toks|
    ensures r.Ok? ==> pos <= r.value.next <= |toks|
    ensures r.Ok? && WellFormed(left) ==> WellFormed(r.value.e)
    ensures r.Err? ==> r.error != NegativePower
    ensures IsOperator(t) ==> r != Err(ExpectingOperator)
    decreases |toks| - pos + 1, 0
  {
    match t
    case Times | Divide | Plus | Minus =>
      var rhs :- ExprAt(toks, pos, Lbp(t));
      Ok(Parsed(Binary(left, t, rhs.e), rhs.next))
    case Pow =>
      var rhs :- ExprAt(toks, pos, Lbp(t) - 1);
      Ok(Parsed(Binary(left, t, rhs.e), rhs.next))
    case _ => Err(ExpectingOperator)
  }

  /** `parse_expr` on a whole token list: `expression(0)` from the start.
      Tokens after the point where it stops are ignored. */
  function ParseTokens(toks: seq<Token>): (r: Result<Expr>)
    ensures r.Ok? ==> WellFormed(r.value)
    ensures r.Err? ==> r.error in {Incomplete, ExpectingLiteral, UnbalancedParens}
  {
    match ExprAt(toks, 0, 0)
    case Ok(p) => Ok(p.e)
    case Err(e) => Err(e)
  }

  /** `parse` on text: lex, then parse the tokens.  Text that yields no
      token at all, such as the empty line, is incomplete. */
  function ParseText(s: seq<char>): (r: Result<Expr>)
    ensures r.Ok? ==> WellFormed(r.value)
    ensures r.Err? ==> r.error in {Incomplete, ExpectingLiteral, UnbalancedParens}
    ensures TokensOf(s) == [] ==> r == Err(Incomplete)
  {
    ParseTokens(TokensOf(s))
  }

  /** A method result and the cursor agree with a specification result: the
      same tree and the same stopping position, or the same error. */
  predicate Agrees(spec: Result<Parsed>, r: Result<Expr>, pos: nat) {
    match spec
    case Ok(p) => r == Ok(p.e) && pos == p.next
    case Err(e) => r == Err(e)
  }

  /** The parser of the source: the token list and a cursor into it. */
  class Parser {
    const toks: seq<Token>
    var pos: nat

    ghost predicate Valid()
      reads this
    {
      pos <= |toks|
    }

    constructor (toks: seq<Token>)
      ensures Valid() && this.toks == toks && pos == 0
    {
      this.toks := toks;
      pos := 0;
    }

    method ParseExpr() returns (r: Result<Expr>)
      requires Valid()
      modifies this
      ensures Valid() && Agrees(ExprAt(toks, old(pos), 0), r, pos)
    {
      r := Expression(0);
    }

    method Expression(rbp: nat) returns (r: Result<Expr>)
      requires Valid()
      modifies this
      ensures Valid() && Agrees(ExprAt(toks, old(pos), rbp), r, pos)
      decreases |toks| - pos, 3
    {
      var left :- ParseNud();
      while NextBindsTighterThan(toks, pos, rbp)
        invariant Valid() && old(pos) < pos
        invariant ExprAt(toks, old(pos), rbp) == LoopAt(toks, left, pos, rbp)
        decreases |toks| - pos
      {
        left :- ParseLed(left);
      }
      r := Ok(left);
    }

    method ParseNud() returns (r: Result<Expr>)
      requires Valid()
      modifies this
      ensures Valid() && Agrees(ParseNudAt(toks, old(pos)), r, pos)
      decreases |toks| - pos, 2
    {
      if pos == |toks| {
        return Err(Incomplete);
      }
      var t := toks[pos];
      pos := pos + 1;
      r := Nud(t);
    }

    method ParseLed(left: Expr) returns (r: Result<Expr>)
      requires Valid()
      modifies this
      ensures Valid() && Agrees(ParseLedAt(toks, left, old(pos)), r, pos)
      decreases |toks| - pos, 1
    {
      if pos == |toks| {
        return Err(Incomplete);
      }
      var t := toks[pos];
      pos := pos + 1;
      r := Led(t, left);
    }

    method Nud(t: Token) returns (r: Result<Expr>)
      requires Valid()
      modifies this
      ensures Valid() && Agrees(NudOf(toks, t, old(pos)), r, pos)
      decreases |toks| - pos + 1, 0
    {
      match t
      case Integer(n) =>
        r := Ok(Literal(n));
      case Minus =>
        var operand :- Expression(100);
        r := Ok(Unary(operand));
      case LParen =>
        var inner :- Expression(0);
        if pos < |toks| && toks[pos] == RParen {
          pos := pos + 1;
          r := Ok(inner);
        } else {
          if pos < |toks| {
            pos := pos + 1;
          }
          r := Err(UnbalancedParens);
        }
      case _ =>
        r := Err(ExpectingLiteral);
    }

    method Led(t: Token, left: Expr) returns (r: Result<Expr>)
      requires Valid()
      modifies this
      ensures Valid() && Agrees(LedOf(toks, t, left, old(pos)), r, pos)
      decreases |toks| - pos + 1, 0
    {
      match t
      case Times | Divide | Plus | Minus =>
        var rhs :- Expression(Lbp(t));
        r := Ok(Binary(left, t, rhs));
      case Pow =>
        var rhs :- Expression(Lbp(t) - 1);
        r := Ok(Binary(left, t, rhs));
      case _ =>
        r := Err(ExpectingOperator);
    }
  }

  /** `parse`: lex the text, then run a fresh parser over the tokens. */
  method Parse(input: seq<char>) returns (r: Result<Expr>)
    ensures r == ParseText(input)
  {
    var toks := Lex(input);
    var parser := new Parser(toks);
    r := parser.ParseExpr();
  }
}
