/** Properties of the evaluator: the order in which errors surface, the
    meaning of each operator, Rust's truncating division, powers, and the
    evaluation of whole expressions from tokens and from text. */
module InterpreterProperties {
  import opened Results
  import opened Lexing
  import opened Parsing
  import opened Interpreter
  import ParserProperties

  /** The unit test of src/interpreter.rs: a literal evaluates to itself. */
  lemma EvalLiteral()
    ensures Interpret(Literal(2)) == Ok(2)
  {
  }

  // ---------------------------------------------------------------------
  // Evaluation order and errors.

  /** Negation of the operand's value, or the operand's error unchanged. */
  lemma InterpretNegation(x: Expr)
    requires WellFormed(x) && DivisionsDefined(x)
    ensures Interpret(Unary(x)) ==
      if Interpret(x).Ok? then Ok(-Interpret(x).value) else Interpret(x)
  {
  }

  /** A binary node reports its left operand's error first, then its right
      operand's, and otherwise applies its operator to the two values. */
  lemma InterpretBinary(l: Expr, op: Token, r: Expr)
    requires WellFormed(Binary(l, op, r)) && DivisionsDefined(Binary(l, op, r))
    ensures Interpret(l).Err? ==> Interpret(Binary(l, op, r)) == Interpret(l)
    ensures Interpret(l).Ok? && Interpret(r).Err? ==> Interpret(Binary(l, op, r)) == Interpret(r)
    ensures Interpret(l).Ok? && Interpret(r).Ok? ==>
      Interpret(Binary(l, op, r)) == HandleBinop(OpOf(op), Interpret(l).value, Interpret(r).value)
  {
  }

  /** What each operator computes on two values. */
  lemma OperatorMeaning(a: int, b: int)
    ensures HandleBinop(Add, a, b) == Ok(a + b)
    ensures HandleBinop(Sub, a, b) == Ok(a - b)
    ensures HandleBinop(Mul, a, b) == Ok(a * b)
    ensures b != 0 ==> HandleBinop(Div, a, b) == Ok(TruncDiv(a, b))
    ensures b >= 0 ==> HandleBinop(BinaryOp.Pow, a, b) == Ok(Power(a, b))
    ensures b < 0 ==> HandleBinop(BinaryOp.Pow, a, b) == Err(NegativePower)
  {
  }

  /** A negative exponent is the one error, whatever the base. */
  lemma NegativeExponentFails(a: int, b: int)
    requires b < 0
    ensures WellFormed(Binary(Literal(a), Token.Pow, Literal(b)))
    ensures DivisionsDefined(Binary(Literal(a), Token.Pow, Literal(b)))
    ensures Interpret(Binary(Literal(a), Token.Pow, Literal(b))) == Err(NegativePower)
    ensures Message(Interpret(Binary(Literal(a), Token.Pow, Literal(b))).error)
         == "cannot raise number to negative power"
  {
    assert Interpret(Literal(a)) == Ok(a);
    assert Interpret(Literal(b)) == Ok(b);
    assert DivisionsDefined(Binary(Literal(a), Token.Pow, Literal(b)));
  }

  /** The error of a failing left operand hides everything to its right,
      even a division by zero. */
  lemma LeftErrorWins(r: Expr)
    requires WellFormed(r)
    ensures var bad := Binary(Literal(2), Token.Pow, Literal(-1));
      var e := Binary(bad, Divide, r);
      DivisionsDefined(e) && Interpret(e) == Err(NegativePower)
  {
  }

  /** Double negation gives the operand's value back. */
  lemma DoubleNegation(x: Expr)
    requires WellFormed(x) && DivisionsDefined(x)
    ensures Interpret(Unary(Unary(x))) == Interpret(x)
  {
    InterpretNegation(x);
    InterpretNegation(Unary(x));
  }

  /** `l - r` and `l + -r` have the same value. */
  lemma SubtractIsAddNegation(l: Expr, r: Expr)
    requires WellFormed(l) && WellFormed(r) && DivisionsDefined(l) && DivisionsDefined(r)
    ensures DivisionsDefined(Binary(l, Minus, r)) && DivisionsDefined(Binary(l, Plus, Unary(r)))
    ensures Interpret(Binary(l, Minus, r)) == Interpret(Binary(l, Plus, Unary(r)))
  {
    InterpretNegation(r);
  }

  // ---------------------------------------------------------------------
  // Rust's integer division.

  /** On a non-negative dividend and a positive divisor, truncation and
      Dafny's Euclidean division agree. */
  lemma TruncDivNonNegative(a: int, b: int)
    requires a >= 0 && b > 0
    ensures TruncDiv(a, b) == a / b
  {
  }

  /** Truncation is symmetric: negating either operand negates the
      quotient. */
  lemma TruncDivSigns(a: int, b: int)
    requires b != 0
    ensures TruncDiv(-a, b) == -TruncDiv(a, b)
    ensures TruncDiv(a, -b) == -TruncDiv(a, b)
  {
    var t := TruncDiv(a, b);
    var r := a - t * b;
    NegateFactor(t, b);
    assert -a - (-t) * b == -r;
    assert a - (-t) * (-b) == r;
    TruncDivUnique(-a, b, -t);
    TruncDivUnique(a, -b, -t);
  }

  lemma NegateFactor(t: int, b: int)
    ensures (-t) * b == -(t * b) && (-t) * (-b) == t * b
  {
  }

  /** `-7 / 2` is `-3` in Rust, where Euclidean division gives `-4`. */
  lemma TruncDivRoundsTowardZero()
    ensures TruncDiv(-7, 2) == -3 && -7 / 2 == -4
    ensures TruncDiv(7, -2) == -3 && TruncDiv(-7, -2) == 3
  {
  }

  /** The quotient is the unique integer whose remainder is smaller than the
      divisor and lies on the dividend's side of zero. */
  lemma TruncDivUnique(a: int, b: int, q: int)
    requires b != 0
    requires Abs(a - q * b) < Abs(b)
    requires (a >= 0 ==> a - q * b >= 0) && (a <= 0 ==> a - q * b <= 0)
    ensures q == TruncDiv(a, b)
  {
    var t := TruncDiv(a, b);
    var r1, r2 := a - t * b, a - q * b;
    var d := q - t;
    Distribute(q, t, b);
    assert r1 - r2 == d * b;
    // both remainders lie on the dividend's side of zero, within |b|
    assert Abs(r1 - r2) < Abs(b);
    if d != 0 {
      ProductAtLeast(d, b);
    }
  }

  lemma Distribute(q: int, t: int, b: int)
    ensures q * b - t * b == (q - t) * b
  {
  }

  lemma ProductAtLeast(d: int, b: int)
    requires d != 0 && b != 0
    ensures Abs(d * b) >= Abs(b)
  {
    if d > 0 && b > 0 {
      assert d * b >= b;
    } else if d > 0 {
      assert d * b <= b;
    } else if b > 0 {
      assert d * b <= -b;
    } else {
      assert d * b >= -b;
    }
  }

  // ---------------------------------------------------------------------
  // Powers.

  /** `b^(m+n) = b^m * b^n`. */
  lemma {:induction false} PowerAdd(b: int, m: nat, n: nat)
    ensures Power(b, m + n) == Power(b, m) * Power(b, n)
    decreases m
  {
    if m > 0 {
      PowerAdd(b, m - 1, n);
      assert Power(b, m + n) == b * Power(b, m - 1 + n);
    }
  }

  /** A negated base keeps the power's size; its sign follows the parity of
      the exponent. */
  lemma {:induction false} PowerOfNegation(b: int, e: nat)
    ensures Power(-b, e) == if e % 2 == 0 then Power(b, e) else -Power(b, e)
    decreases e
  {
    if e > 0 {
      PowerOfNegation(b, e - 1);
    }
  }

  /** Any base to the power zero is one, also zero: `0^0 = 1`. */
  lemma PowerZero(b: int)
    ensures Power(b, 0) == 1
    ensures HandleBinop(BinaryOp.Pow, b, 0) == Ok(1)
  {
  }

  // ---------------------------------------------------------------------
  // Whole expressions.

  /** `1 - 2 - 3` folds to the left and evaluates to `-4`. */
  lemma SubtractionChainValue()
    ensures var p := ParseTokens([Integer(1), Minus, Integer(2), Minus, Integer(3)]);
      p.Ok? && DivisionsDefined(p.value) && Interpret(p.value) == Ok(-4)
  {
    ParserProperties.SubtractionChain();
  }

  /** `2 ^ 3 ^ 2` groups to the right: `2 ^ 9 = 512`. */
  lemma PowChainValue()
    ensures var p := ParseTokens([Integer(2), Token.Pow, Integer(3), Token.Pow, Integer(2)]);
      p.Ok? && DivisionsDefined(p.value) && Interpret(p.value) == Ok(512)
  {
    ParserProperties.PowChain();
  }

  /** `3 * (2 + -4) ^ 4 / 2` evaluates to 24 once its tokens include `^`:
      `(-2)^4 = 16`, `3 * 16 = 48`, `48 / 2 = 24`. */
  lemma EvalSimpleTokens()
    ensures ParseTokens(ParserProperties.SimpleTokens) == Ok(ParserProperties.SimpleTree)
    ensures DivisionsDefined(ParserProperties.SimpleTree) && Interpret(ParserProperties.SimpleTree) == Ok(24)
  {
    ParserProperties.SimpleParses(ParserProperties.SimpleTokens);
    SimpleTreeValue();
  }

  /** `(2 + -4) ^ 4` is `(-2)^4 = 16`. */
  lemma SimplePowValue()
    ensures var p := Binary(ParserProperties.SimpleGroup, Token.Pow, Literal(4));
      WellFormed(p) && DivisionsDefined(p) && Interpret(p) == Ok(16)
  {
    assert Interpret(ParserProperties.SimpleGroup) == Ok(-2);
    PowerOfNegation(2, 4);
    assert Power(-2, 4) == 16;
  }

  lemma SimpleTreeValue()
    ensures DivisionsDefined(ParserProperties.SimpleTree) && Interpret(ParserProperties.SimpleTree) == Ok(24)
  {
    var p := Binary(ParserProperties.SimpleGroup, Token.Pow, Literal(4));
    var product := Binary(Literal(3), Times, p);
    SimplePowValue();
    assert Interpret(product) == Ok(48);
    assert TruncDiv(48, 2) == 24;
  }

  /** The same line as text: the lexer stops at `^`, so only
      `3 * (2 + -4)` is parsed, which evaluates to -6. */
  lemma EvalSimpleText()
    ensures var p := ParseText("3 * (2 + -4) ^ 4 / 2");
      p.Ok? && DivisionsDefined(p.value) && Interpret(p.value) == Ok(-6)
  {
    ParserProperties.SimpleTextParses();
  }
}
