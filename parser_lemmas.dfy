/** Properties of the parser: binding powers, where `expression` stops,
    precedence and associativity, the error branches, and a round trip
    through a fully parenthesised token rendering of a tree. */
module ParserProperties {
  import opened Results
  import opened Lexing
  import opened Parsing
  import LexerProperties

  lemma BindingPowers()
    ensures Lbp(Pow) == 30
    ensures Lbp(Times) == 20 && Lbp(Divide) == 20
    ensures Lbp(Plus) == 10 && Lbp(Minus) == 10
    ensures Lbp(LParen) == 0 && Lbp(RParen) == 0 && forall n :: Lbp(Integer(n)) == 0
  {
  }

  // ---------------------------------------------------------------------
  // The left denotations of the operators.

  /** Every operator parses its right operand with `RightBp`: its own
      binding power (`+ - * /`, left-associative) or one less (`^`,
      right-associative), and builds a binary node. */
  lemma LedByRightBp(toks: seq<Token>, t: Token, left: Expr, pos: nat)
    requires pos <= |toks| && IsOperator(t)
    ensures var rhs := ExprAt(toks, pos, RightBp(t));
      LedOf(toks, t, left, pos) ==
        if rhs.Ok? then Ok(Parsed(Binary(left, t, rhs.value.e), rhs.value.next))
        else Err(rhs.error)
  {
  }

  /** `led` is reached only at an operator: the loop of `expression` takes a
      token only when its binding power exceeds `rbp >= 0`, so the
      "incomplete" branch of `parse_led` and the "expecting operator" branch
      of `led` are never taken from there. */
  lemma LedOnlyAtOperator(toks: seq<Token>, left: Expr, pos: nat, rbp: nat)
    requires pos <= |toks| && NextBindsTighterThan(toks, pos, rbp)
    ensures pos < |toks| && IsOperator(toks[pos])
    ensures ParseLedAt(toks, left, pos) == LedOf(toks, toks[pos], left, pos + 1)
    ensures ParseLedAt(toks, left, pos) != Err(ExpectingOperator)
  {
  }

  // ---------------------------------------------------------------------
  // Unary minus takes exactly one term.

  /** With a binding power of 30 or more (prefix minus uses 100) the loop
      of `expression` never runs: the result is one null-denotation term. */
  lemma HighBindingPowerTakesOneTerm(toks: seq<Token>, pos: nat, rbp: nat)
    requires pos <= |toks| && rbp >= 30
    ensures ExprAt(toks, pos, rbp) == ParseNudAt(toks, pos)
  {
    match ParseNudAt(toks, pos)
    case Err(_) =>
    case Ok(p) =>
      assert !NextBindsTighterThan(toks, p.next, rbp);
  }

  lemma MinusOperandIsOneTerm(toks: seq<Token>, pos: nat)
    requires pos <= |toks|
    ensures var term := ParseNudAt(toks, pos);
      NudOf(toks, Minus, pos) ==
        if term.Ok? then Ok(Parsed(Unary(term.value.e), term.value.next))
        else Err(term.error)
  {
    HighBindingPowerTakesOneTerm(toks, pos, 100);
  }

  /** `- 2 ^ 2` is `(-2) ^ 2`. */
  lemma NegationBindsTighterThanPow()
    ensures ParseTokens([Minus, Integer(2), Pow, Integer(2)])
         == Ok(Binary(Unary(Literal(2)), Pow, Literal(2)))
  {
    var toks := [Minus, Integer(2), Pow, Integer(2)];
    MinusOperandIsOneTerm(toks, 1);
    assert ParseNudAt(toks, 0) == Ok(Parsed(Unary(Literal(2)), 2));
    assert ExprAt(toks, 3, 29) == Ok(Parsed(Literal(2), 4));
    LedByRightBp(toks, Pow, Unary(Literal(2)), 3);
  }

  /** One turn of the loop of `expression`: fold the next operator. */
  lemma LoopFolds(toks: seq<Token>, left: Expr, pos: nat, rbp: nat, rhs: Parsed)
    requires pos < |toks| && IsOperator(toks[pos]) && Lbp(toks[pos]) > rbp
    requires ExprAt(toks, pos + 1, RightBp(toks[pos])) == Ok(rhs)
    ensures LoopAt(toks, left, pos, rbp)
         == LoopAt(toks, Binary(left, toks[pos], rhs.e), rhs.next, rbp)
  {
    LedByRightBp(toks, toks[pos], left, pos + 1);
    assert ParseLedAt(toks, left, pos) == Ok(Parsed(Binary(left, toks[pos], rhs.e), rhs.next));
  }

  /** The loop of `expression` ends before a token that does not bind
      tighter than `rbp`. */
  lemma LoopStops(toks: seq<Token>, left: Expr, pos: nat, rbp: nat)
    requires pos <= |toks| && StopsAt(toks, pos, rbp)
    ensures LoopAt(toks, left, pos, rbp) == Ok(Parsed(left, pos))
  {
  }

  /** `expression` is its first term followed by the loop. */
  lemma ExprFromTerm(toks: seq<Token>, pos: nat, rbp: nat, first: Parsed)
    requires pos <= |toks| && ParseNudAt(toks, pos) == Ok(first)
    ensures ExprAt(toks, pos, rbp) == LoopAt(toks, first.e, first.next, rbp)
  {
  }

  /** An integer token followed by a token that does not bind tighter than
      `rbp` (or by the end) is parsed as that literal alone. */
  lemma LiteralThenStop(toks: seq<Token>, pos: nat, n: int, rbp: nat)
    requires pos < |toks| && toks[pos] == Integer(n)
    requires StopsAt(toks, pos + 1, rbp)
    ensures ExprAt(toks, pos, rbp) == Ok(Parsed(Literal(n), pos + 1))
  {
    assert ParseNudAt(toks, pos) == NudOf(toks, Integer(n), pos + 1);
    assert ParseNudAt(toks, pos) == Ok(Parsed(Literal(n), pos + 1));
    assert LoopAt(toks, Literal(n), pos + 1, rbp) == Ok(Parsed(Literal(n), pos + 1));
  }

  // ---------------------------------------------------------------------
  // Precedence and associativity.

  /** `a o1 b o2 c` nests to the right exactly when `o2` binds tighter than
      the right operand of `o1` is parsed with; otherwise it folds to the
      left. */
  lemma ThreeOperands(a: int, o1: Token, b: int, o2: Token, c: int)
    requires IsOperator(o1) && IsOperator(o2)
    ensures ParseTokens([Integer(a), o1, Integer(b), o2, Integer(c)]) ==
      if Lbp(o2) > RightBp(o1)
      then Ok(Binary(Literal(a), o1, Binary(Literal(b), o2, Literal(c))))
      else Ok(Binary(Binary(Literal(a), o1, Literal(b)), o2, Literal(c)))
  {
    var toks := [Integer(a), o1, Integer(b), o2, Integer(c)];
    assert ParseNudAt(toks, 0) == Ok(Parsed(Literal(a), 1));
    LiteralThenStop(toks, 4, c, RightBp(o2));
    LedByRightBp(toks, o2, Literal(b), 4);
    if Lbp(o2) > RightBp(o1) {
      var inner := Binary(Literal(b), o2, Literal(c));
      assert ParseNudAt(toks, 2) == Ok(Parsed(Literal(b), 3));
      assert ParseLedAt(toks, Literal(b), 3) == Ok(Parsed(inner, 5));
      assert LoopAt(toks, inner, 5, RightBp(o1)) == Ok(Parsed(inner, 5));
      assert LoopAt(toks, Literal(b), 3, RightBp(o1)) == Ok(Parsed(inner, 5));
      assert ExprAt(toks, 2, RightBp(o1)) == Ok(Parsed(inner, 5));
      LedByRightBp(toks, o1, Literal(a), 2);
      var whole := Binary(Literal(a), o1, inner);
      assert ParseLedAt(toks, Literal(a), 1) == Ok(Parsed(whole, 5));
      assert LoopAt(toks, whole, 5, 0) == Ok(Parsed(whole, 5));
      assert LoopAt(toks, Literal(a), 1, 0) == Ok(Parsed(whole, 5));
    } else {
      LiteralThenStop(toks, 2, b, RightBp(o1));
      LedByRightBp(toks, o1, Literal(a), 2);
      var first := Binary(Literal(a), o1, Literal(b));
      var whole := Binary(first, o2, Literal(c));
      assert ParseLedAt(toks, Literal(a), 1) == Ok(Parsed(first, 3));
      assert ParseLedAt(toks, first, 3) == Ok(Parsed(whole, 5));
      assert LoopAt(toks, whole, 5, 0) == Ok(Parsed(whole, 5));
      assert LoopAt(toks, first, 3, 0) == Ok(Parsed(whole, 5));
      assert LoopAt(toks, Literal(a), 1, 0) == Ok(Parsed(whole, 5));
    }
  }

  /** `+ - * /` are left-associative. */
  lemma LeftAssociative(a: int, o: Token, b: int, c: int)
    requires o in {Plus, Minus, Times, Divide}
    ensures ParseTokens([Integer(a), o, Integer(b), o, Integer(c)])
         == Ok(Binary(Binary(Literal(a), o, Literal(b)), o, Literal(c)))
  {
    ThreeOperands(a, o, b, o, c);
  }

  /** `^` is right-associative. */
  lemma PowRightAssociative(a: int, b: int, c: int)
    ensures ParseTokens([Integer(a), Pow, Integer(b), Pow, Integer(c)])
         == Ok(Binary(Literal(a), Pow, Binary(Literal(b), Pow, Literal(c))))
  {
    ThreeOperands(a, Pow, b, Pow, c);
  }

  lemma SubtractionChain()
    ensures ParseTokens([Integer(1), Minus, Integer(2), Minus, Integer(3)])
         == Ok(Binary(Binary(Literal(1), Minus, Literal(2)), Minus, Literal(3)))
  {
    LeftAssociative(1, Minus, 2, 3);
  }

  lemma PowChain()
    ensures ParseTokens([Integer(2), Pow, Integer(3), Pow, Integer(2)])
         == Ok(Binary(Literal(2), Pow, Binary(Literal(3), Pow, Literal(2))))
  {
    PowRightAssociative(2, 3, 2);
  }

  /** `1 + 2 * 3`: multiplication nests on the right of the addition. */
  lemma TimesBindsTighterThanPlus()
    ensures ParseTokens([Integer(1), Plus, Integer(2), Times, Integer(3)])
         == Ok(Binary(Literal(1), Plus, Binary(Literal(2), Times, Literal(3))))
  {
    ThreeOperands(1, Plus, 2, Times, 3);
  }

  // ---------------------------------------------------------------------
  // The parse of text, and where it stops.

  /** The unit test of src/parser.rs: `parse("2")` is `Literal(2)`. */
  lemma ParseLiteralExpr()
    ensures ParseText("2") == Ok(Literal(2))
  {
    assert TokensOf("2") == [Integer(2)] by {
      assert DecimalValue("2") == 2 by { assert "2"[..0] == ""; }
      assert "2"[0..1] == "2";
    }
    assert ExprAt([Integer(2)], 0, 0) == Ok(Parsed(Literal(2), 1));
  }

  /** `"2 2"` parses as `2`: the second literal has binding power 0, so
      `expression(0)` stops before it and nothing reports the rest. */
  lemma TrailingInputIgnored()
    ensures ParseText("2 2") == Ok(Literal(2))
  {
    TwoLiteralsText("2 2");
    var toks := [Integer(2), Integer(2)];
    LiteralThenStop(toks, 0, 2, 0);
  }

  /** `"2 2"` lexes to two integer tokens. */
  lemma TwoLiteralsText(s: seq<char>)
    requires s == "2 2"
    ensures TokensOf(s) == [Integer(2), Integer(2)]
  {
    assert |s| == 3 && s[0] == '2' && s[1] == ' ' && s[2] == '2';
    assert LexFrom(s, 3) == [];
    LexerProperties.OneDigit(s, 2);
    LexerProperties.DigitThenSpace(s, 0);
  }

  // ---------------------------------------------------------------------
  // The expression of the evaluator's unit test, from its tokens.

  /** The tokens of `3 * (2 + -4) ^ 4 / 2`. */
  const SimpleTokens: seq<Token> :=
    [Integer(3), Times, LParen, Integer(2), Plus, Minus, Integer(4), RParen,
     Token.Pow, Integer(4), Divide, Integer(2)]

  /** The tree of `(2 + -4)`. */
  const SimpleGroup: Expr := Binary(Literal(2), Plus, Unary(Literal(4)))

  /** The tree of `3 * (2 + -4) ^ 4 / 2`. */
  const SimpleTree: Expr :=
    Binary(Binary(Literal(3), Times, Binary(SimpleGroup, Token.Pow, Literal(4))), Divide, Literal(2))

  /** An integer token is a term by itself. */
  lemma LiteralTerm(toks: seq<Token>, pos: nat, n: int)
    requires pos < |toks| && toks[pos] == Integer(n)
    ensures ParseNudAt(toks, pos) == Ok(Parsed(Literal(n), pos + 1))
  {
    assert ParseNudAt(toks, pos) == NudOf(toks, Integer(n), pos + 1);
  }

  /** `(2 + -4)` at position `i` is one term, six tokens long. */
  lemma SimpleGroupParses(toks: seq<Token>, i: nat)
    requires i + 6 <= |toks|
    requires toks[i] == LParen && toks[i + 1] == Integer(2) && toks[i + 2] == Plus
    requires toks[i + 3] == Minus && toks[i + 4] == Integer(4) && toks[i + 5] == RParen
    ensures ParseNudAt(toks, i) == Ok(Parsed(SimpleGroup, i + 6))
  {
    LiteralTerm(toks, i + 4, 4);
    NegationIsOneTerm(toks, i + 3, Literal(4), i + 5);
    LiteralTerm(toks, i + 1, 2);
    GroupIsOneTerm(toks, i, Literal(2), Plus, Unary(Literal(4)), i + 2, i + 5);
  }

  /** `(2 + -4) ^ 4` at position 2 is the right operand of `*`: `^` binds
      tighter than `*`, and the loop stops before a token that does not. */
  lemma SimplePowParses(toks: seq<Token>)
    requires |toks| > 10
    requires toks[2] == LParen && toks[3] == Integer(2) && toks[4] == Plus
    requires toks[5] == Minus && toks[6] == Integer(4) && toks[7] == RParen
    requires toks[8] == Token.Pow && toks[9] == Integer(4) && Lbp(toks[10]) <= 20
    ensures ExprAt(toks, 2, 20) == Ok(Parsed(Binary(SimpleGroup, Token.Pow, Literal(4)), 10))
  {
    var p := Binary(SimpleGroup, Token.Pow, Literal(4));
    SimpleGroupParses(toks, 2);
    ExprFromTerm(toks, 2, 20, Parsed(SimpleGroup, 8));
    LiteralThenStop(toks, 9, 4, 29);
    LoopFolds(toks, SimpleGroup, 8, 20, Parsed(Literal(4), 10));
    LoopStops(toks, p, 10, 20);
  }

  /** The whole token list parses to `SimpleTree`. */
  lemma SimpleParses(toks: seq<Token>)
    requires toks == SimpleTokens
    ensures ParseTokens(toks) == Ok(SimpleTree)
  {
    var p := Binary(SimpleGroup, Token.Pow, Literal(4));
    assert |toks| == 12 && toks[0] == Integer(3) && toks[1] == Times;
    assert toks[2] == LParen && toks[3] == Integer(2) && toks[4] == Plus;
    assert toks[5] == Minus && toks[6] == Integer(4) && toks[7] == RParen;
    assert toks[8] == Token.Pow && toks[9] == Integer(4);
    assert toks[10] == Divide && toks[11] == Integer(2);
    SimpleTreeFromPieces(toks, p);
  }

  lemma SimpleTreeFromPieces(toks: seq<Token>, p: Expr)
    requires |toks| == 12 && toks[0] == Integer(3) && toks[1] == Times
    requires toks[2] == LParen && toks[3] == Integer(2) && toks[4] == Plus
    requires toks[5] == Minus && toks[6] == Integer(4) && toks[7] == RParen
    requires toks[8] == Token.Pow && toks[9] == Integer(4)
    requires toks[10] == Divide && toks[11] == Integer(2)
    requires p == Binary(SimpleGroup, Token.Pow, Literal(4))
    ensures ParseTokens(toks) == Ok(Binary(Binary(Literal(3), Times, p), Divide, Literal(2)))
  {
    var m := Binary(Literal(3), Times, p);
    LiteralTerm(toks, 0, 3);
    ExprFromTerm(toks, 0, 0, Parsed(Literal(3), 1));
    SimplePowParses(toks);
    LoopFolds(toks, Literal(3), 1, 0, Parsed(p, 10));
    LiteralThenStop(toks, 11, 2, 20);
    LoopFolds(toks, m, 10, 0, Parsed(Literal(2), 12));
    LoopStops(toks, Binary(m, Divide, Literal(2)), 12, 0);
  }

  /** The same line as text: the lexer stops at `^`, so only
      `3 * (2 + -4)` reaches the parser. */
  lemma SimpleTextParses()
    ensures ParseText("3 * (2 + -4) ^ 4 / 2") == Ok(Binary(Literal(3), Times, SimpleGroup))
  {
    var pre := "3 * (2 + -4) ";
    assert "3 * (2 + -4) ^ 4 / 2" == pre + "^" + " 4 / 2";
    LexerProperties.CaretEndsStream(pre, " 4 / 2");
    LexerProperties.SimpleTextTokens(pre);
    SimpleTextTokensParse([Integer(3), Times, LParen, Integer(2), Plus, Minus, Integer(4), RParen]);
  }

  lemma SimpleTextTokensParse(toks: seq<Token>)
    requires toks == [Integer(3), Times, LParen, Integer(2), Plus, Minus, Integer(4), RParen]
    ensures ParseTokens(toks) == Ok(Binary(Literal(3), Times, SimpleGroup))
  {
    SimpleGroupParses(toks, 2);
    ExprFromTerm(toks, 2, 20, Parsed(SimpleGroup, 8));
    LoopStops(toks, SimpleGroup, 8, 20);
    LiteralTerm(toks, 0, 3);
    ExprFromTerm(toks, 0, 0, Parsed(Literal(3), 1));
    LoopFolds(toks, Literal(3), 1, 0, Parsed(SimpleGroup, 8));
    LoopStops(toks, Binary(Literal(3), Times, SimpleGroup), 8, 0);
  }

  // ---------------------------------------------------------------------
  // The three errors the parser reports.

  /** Input running out where a term is required. */
  lemma EndOfInputIsIncomplete(toks: seq<Token>, rbp: nat)
    ensures ExprAt(toks, |toks|, rbp) == Err(Incomplete)
  {
  }

  lemma DanglingOperatorIsIncomplete(a: int, o: Token)
    requires IsOperator(o)
    ensures ParseTokens([Integer(a), o]) == Err(Incomplete)
  {
    var toks := [Integer(a), o];
    assert ParseNudAt(toks, 0) == Ok(Parsed(Literal(a), 1));
    assert ExprAt(toks, 2, RightBp(o)) == Err(Incomplete);
    LedByRightBp(toks, o, Literal(a), 2);
    assert ParseLedAt(toks, Literal(a), 1) == Err(Incomplete);
    assert LoopAt(toks, Literal(a), 1, 0) == Err(Incomplete);
  }

  /** A token that cannot start a term, in term position. */
  lemma NotATermIsExpectingLiteral(toks: seq<Token>, pos: nat, rbp: nat)
    requires pos < |toks| && toks[pos] in {RParen, Times, Divide, Plus, Pow}
    ensures ExprAt(toks, pos, rbp) == Err(ExpectingLiteral)
  {
    assert NudOf(toks, toks[pos], pos + 1) == Err(ExpectingLiteral);
    assert ParseNudAt(toks, pos) == Err(ExpectingLiteral);
  }

  /** `( e )`: a `(` whose inner expression is followed by `)` is one term,
      whose tree is the inner expression's and which ends after the `)`. */
  lemma ParenthesisedTerm(toks: seq<Token>, pos: nat, inner: Parsed)
    requires pos < |toks| && toks[pos] == LParen
    requires ExprAt(toks, pos + 1, 0) == Ok(inner)
    requires inner.next < |toks| && toks[inner.next] == RParen
    ensures ParseNudAt(toks, pos) == Ok(Parsed(inner.e, inner.next + 1))
  {
    assert ParseNudAt(toks, pos) == NudOf(toks, LParen, pos + 1);
  }

  /** `(1)` parses to the literal alone. */
  lemma ParseParenLiteral()
    ensures ParseTokens([LParen, Integer(1), RParen]) == Ok(Literal(1))
  {
    var toks := [LParen, Integer(1), RParen];
    LiteralThenStop(toks, 1, 1, 0);
    ParenthesisedTerm(toks, 0, Parsed(Literal(1), 2));
    ExprFromTerm(toks, 0, 0, Parsed(Literal(1), 3));
    LoopStops(toks, Literal(1), 3, 0);
  }

  /** `(` whose inner expression is not followed by `)`. */
  lemma MissingCloseIsUnbalanced(toks: seq<Token>, pos: nat, rbp: nat)
    requires pos < |toks| && toks[pos] == LParen
    requires ExprAt(toks, pos + 1, 0).Ok?
    requires var k := ExprAt(toks, pos + 1, 0).value.next; k == |toks| || toks[k] != RParen
    ensures ExprAt(toks, pos, rbp) == Err(UnbalancedParens)
  {
    assert NudOf(toks, LParen, pos + 1) == Err(UnbalancedParens);
    assert ParseNudAt(toks, pos) == Err(UnbalancedParens);
  }

  lemma UnclosedParen()
    ensures ParseTokens([LParen, Integer(1)]) == Err(UnbalancedParens)
    ensures ParseTokens([LParen, Integer(1), Integer(2)]) == Err(UnbalancedParens)
  {
    LiteralThenStop([LParen, Integer(1)], 1, 1, 0);
    MissingCloseIsUnbalanced([LParen, Integer(1)], 0, 0);
    LiteralThenStop([LParen, Integer(1), Integer(2)], 1, 1, 0);
    MissingCloseIsUnbalanced([LParen, Integer(1), Integer(2)], 0, 0);
  }

  // ---------------------------------------------------------------------
  // Round trip: a fully parenthesised rendering of a tree parses back to it.

  /** Tokens for a tree: literals as integers, negation as `-` before its
      operand, binary nodes wrapped in parentheses. */
  function Unparse(e: Expr): (toks: seq<Token>)
    ensures |toks| > 0
  {
    match e
    case Literal(n) => [Integer(n)]
    case Unary(x) => [Minus] + Unparse(x)
    case Binary(l, op, r) => [LParen] + Unparse(l) + [op] + Unparse(r) + [RParen]
  }

  /** A parenthesised binary group: `(`, a term `l`, an operator, a term
      `r`, `)`.  The operator's right operand stops at the `)`, and so does
      the loop of the inner `expression(0)`. */
  lemma GroupIsOneTerm(toks: seq<Token>, pos: nat, l: Expr, op: Token, r: Expr, a: nat, b: nat)
    requires pos < a < b < |toks| && IsOperator(op)
    requires toks[pos] == LParen && toks[a] == op && toks[b] == RParen
    requires ParseNudAt(toks, pos + 1) == Ok(Parsed(l, a))
    requires ParseNudAt(toks, a + 1) == Ok(Parsed(r, b))
    ensures ParseNudAt(toks, pos) == Ok(Parsed(Binary(l, op, r), b + 1))
  {
    var e := Binary(l, op, r);
    assert LoopAt(toks, r, b, RightBp(op)) == Ok(Parsed(r, b));
    assert ExprAt(toks, a + 1, RightBp(op)) == Ok(Parsed(r, b));
    LedByRightBp(toks, op, l, a + 1);
    assert ParseLedAt(toks, l, a) == Ok(Parsed(e, b));
    assert LoopAt(toks, e, b, 0) == Ok(Parsed(e, b));
    assert LoopAt(toks, l, a, 0) == Ok(Parsed(e, b));
    assert ExprAt(toks, pos + 1, 0) == Ok(Parsed(e, b));
    assert NudOf(toks, LParen, pos + 1) == Ok(Parsed(e, b + 1));
  }

  /** The tokens `u` stand in `toks` from position `pos` on. */
  predicate HoldsAt(toks: seq<Token>, pos: nat, u: seq<Token>) {
    pos + |u| <= |toks| && toks[pos..pos + |u|] == u
  }

  /** A piece of a piece of a token list is a piece of the list. */
  lemma SliceWithin(toks: seq<Token>, pos: nat, u: seq<Token>, off: nat, v: seq<Token>)
    requires HoldsAt(toks, pos, u) && HoldsAt(u, off, v)
    ensures HoldsAt(toks, pos + off, v)
  {
    assert forall k :: 0 <= k < |v| ==> toks[pos + off + k] == u[off + k] == v[k];
  }

  /** A prefix minus followed by one term is one term. */
  lemma NegationIsOneTerm(toks: seq<Token>, pos: nat, x: Expr, b: nat)
    requires pos < |toks| && toks[pos] == Minus
    requires ParseNudAt(toks, pos + 1) == Ok(Parsed(x, b))
    ensures ParseNudAt(toks, pos) == Ok(Parsed(Unary(x), b))
  {
    MinusOperandIsOneTerm(toks, pos + 1);
    assert ParseNudAt(toks, pos) == NudOf(toks, Minus, pos + 1);
  }

  /** The rendering of a well-formed tree, wherever it stands in a token
      list, is read back as one term by `parse_nud`. */
  lemma {:induction false} UnparseIsOneTerm(e: Expr, toks: seq<Token>, pos: nat)
    requires WellFormed(e) && HoldsAt(toks, pos, Unparse(e))
    ensures ParseNudAt(toks, pos) == Ok(Parsed(e, pos + |Unparse(e)|))
    decreases e, 1
  {
    match e
    case Literal(n) =>
      assert toks[pos] == Unparse(e)[0];
      assert ParseNudAt(toks, pos) == NudOf(toks, Integer(n), pos + 1);
    case Unary(x) =>
      UnparseUnaryIsOneTerm(x, toks, pos);
    case Binary(l, op, r) =>
      UnparseBinaryIsOneTerm(l, op, r, toks, pos);
  }

  lemma {:induction false} UnparseUnaryIsOneTerm(x: Expr, toks: seq<Token>, pos: nat)
    requires WellFormed(x) && HoldsAt(toks, pos, Unparse(Unary(x)))
    ensures ParseNudAt(toks, pos) == Ok(Parsed(Unary(x), pos + |Unparse(Unary(x))|))
    decreases Unary(x), 0
  {
    var u, ux := Unparse(Unary(x)), Unparse(x);
    assert u == [Minus] + ux && u[1..1 + |ux|] == ux;
    assert toks[pos] == u[0];
    SliceWithin(toks, pos, u, 1, ux);
    UnparseIsOneTerm(x, toks, pos + 1);
    NegationIsOneTerm(toks, pos, x, pos + 1 + |ux|);
  }

  lemma {:induction false} UnparseBinaryIsOneTerm(l: Expr, op: Token, r: Expr, toks: seq<Token>, pos: nat)
    requires WellFormed(Binary(l, op, r)) && HoldsAt(toks, pos, Unparse(Binary(l, op, r)))
    ensures ParseNudAt(toks, pos) == Ok(Parsed(Binary(l, op, r), pos + |Unparse(Binary(l, op, r))|))
    decreases Binary(l, op, r), 0
  {
    var u, ul, ur := Unparse(Binary(l, op, r)), Unparse(l), Unparse(r);
    var a := pos + 1 + |ul|;
    var b := a + 1 + |ur|;
    assert pos + |u| == b + 1 && b < |toks| && toks[pos] == LParen && toks[a] == op && toks[b] == RParen
      && HoldsAt(toks, pos + 1, ul) && HoldsAt(toks, a + 1, ur) by {
      assert u == [LParen] + ul + [op] + ur + [RParen];
      GroupInPlace(toks, pos, u, ul, op, ur);
    }
    assert ParseNudAt(toks, pos + 1) == Ok(Parsed(l, a)) by {
      UnparseIsOneTerm(l, toks, pos + 1);
    }
    assert ParseNudAt(toks, a + 1) == Ok(Parsed(r, b)) by {
      UnparseIsOneTerm(r, toks, a + 1);
    }
    GroupIsOneTerm(toks, pos, l, op, r, a, b);
  }

  /** Where the pieces of a parenthesised group `( ul op ur )` sit in a
      token list that holds it at `pos`. */
  lemma GroupInPlace(toks: seq<Token>, pos: nat, u: seq<Token>, ul: seq<Token>, op: Token, ur: seq<Token>)
    requires u == [LParen] + ul + [op] + ur + [RParen] && HoldsAt(toks, pos, u)
    ensures pos + |ul| + |ur| + 2 < |toks|
    ensures toks[pos] == LParen && toks[pos + 1 + |ul|] == op && toks[pos + 2 + |ul| + |ur|] == RParen
    ensures HoldsAt(toks, pos + 1, ul) && HoldsAt(toks, pos + 2 + |ul|, ur)
  {
    assert u[1..1 + |ul|] == ul;
    assert u[2 + |ul|..2 + |ul| + |ur|] == ur;
    SliceWithin(toks, pos, u, 1, ul);
    SliceWithin(toks, pos, u, 2 + |ul|, ur);
    assert toks[pos] == u[0];
    assert toks[pos + 1 + |ul|] == u[1 + |ul|];
    assert toks[pos + 2 + |ul| + |ur|] == u[2 + |ul| + |ur|];
  }

  /** Parsing inverts `Unparse` on every well-formed tree. */
  lemma UnparseRoundTrip(e: Expr)
    requires WellFormed(e)
    ensures ParseTokens(Unparse(e)) == Ok(e)
  {
    var toks := Unparse(e);
    assert HoldsAt(toks, 0, toks) by {
      assert toks[0..|toks|] == toks;
    }
    UnparseIsOneTerm(e, toks, 0);
    assert LoopAt(toks, e, |toks|, 0) == Ok(Parsed(e, |toks|));
    assert ExprAt(toks, 0, 0) == Ok(Parsed(e, |toks|));
  }

  // ---------------------------------------------------------------------
  // Round trip from text: render the tokens, lex, parse.

  /** Trees whose rendering the lexer can read back: no `^`, no negative
      literal. */
  predicate LexableTree(e: Expr) {
    match e
    case Literal(n) => n >= 0
    case Unary(x) => LexableTree(x)
    case Binary(l, op, r) => op != Pow && LexableTree(l) && LexableTree(r)
  }

  lemma {:induction false} UnparseLexable(e: Expr)
    requires WellFormed(e) && LexableTree(e)
    ensures forall k :: 0 <= k < |Unparse(e)| ==> IsLexerToken(Unparse(e)[k])
  {
    match e
    case Literal(_) =>
    case Unary(x) =>
      UnparseLexable(x);
    case Binary(l, op, r) =>
      UnparseLexable(l);
      UnparseLexable(r);
  }

  /** Writing a tree out as text, then lexing and parsing it, gives the
      tree back. */
  lemma TextRoundTrip(e: Expr)
    requires WellFormed(e) && LexableTree(e)
    ensures (UnparseLexable(e); ParseText(LexerProperties.Render(Unparse(e))) == Ok(e))
  {
    UnparseLexable(e);
    LexerProperties.LexRenderRoundTrip(Unparse(e));
    UnparseRoundTrip(e);
  }
}
