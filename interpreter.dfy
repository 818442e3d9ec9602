/** The tree-walking evaluator of src/interpreter.rs.

    Values are mathematical integers; the source's `i64` overflow is not
    modelled.  Division follows Rust's `/` on integers, which truncates
    toward zero.  The source does not check for a zero divisor (Rust panics
    there), so `Interpret` requires that evaluation never divides by zero. */
module Interpreter {
  import opened Results
  import opened Lexing
  import opened Parsing

  datatype UnaryOp = Neg

  datatype BinaryOp = Pow | Mul | Div | Add | Sub

  /** The operator a binary node's token stands for.  Distinct operator
      tokens stand for distinct operators: `TokenOf` takes each one back. */
  function OpOf(t: Token): (op: BinaryOp)
    requires IsOperator(t)
    ensures TokenOf(op) == t
  {
    match t
    case Times => Mul
    case Divide => Div
    case Plus => Add
    case Minus => Sub
    case Pow => BinaryOp.Pow
  }

  /** The token that writes each operator. */
  function TokenOf(op: BinaryOp): (t: Token)
    ensures IsOperator(t)
  {
    match op
    case Mul => Times
    case Div => Divide
    case Add => Plus
    case Sub => Minus
    case Pow => Token.Pow
  }

  function Abs(x: int): nat {
    if x < 0 then -x else x
  }

  /** Rust's `/` on integers: the quotient rounded toward zero, so the
      remainder `a - q * b` is smaller than `b` in size and lies on the same
      side of zero as `a`. */
  function TruncDiv(a: int, b: int): (q: int)
    requires b != 0
    ensures Abs(a - q * b) < Abs(b)
    ensures (a >= 0 ==> a - q * b >= 0) && (a <= 0 ==> a - q * b <= 0)
  {
    var m := Abs(a) / Abs(b);
    var q := if (a < 0) == (b < 0) then m else -m;
    TruncRemainder(a, b, m, q);
    q
  }

  /** The remainder of rounding `|a| / |b|` toward zero is `|a| % |b|`,
      with the sign of `a`. */
  lemma TruncRemainder(a: int, b: int, m: int, q: int)
    requires b != 0 && m == Abs(a) / Abs(b)
    requires q == if (a < 0) == (b < 0) then m else -m
    ensures Abs(a - q * b) < Abs(b)
    ensures (a >= 0 ==> a - q * b >= 0) && (a <= 0 ==> a - q * b <= 0)
  {
    var A: int, B: int := Abs(a), Abs(b);
    assert A == B * m + A % B;
    assert 0 <= A % B < B;
    RemainderOfQuotient(a, b, m, q);
  }

  lemma RemainderOfQuotient(a: int, b: int, m: int, q: int)
    requires b != 0 && Abs(a) == Abs(b) * m + Abs(a) % Abs(b)
    requires q == if (a < 0) == (b < 0) then m else -m
    ensures a - q * b == if a < 0 then -(Abs(a) % Abs(b)) else Abs(a) % Abs(b)
  {
    var A: int, B: int := Abs(a), Abs(b);
    if (a < 0) == (b < 0) {
      if a < 0 {
        assert q * b == m * -B == -(m * B);
      } else {
        assert q * b == m * B;
      }
    } else {
      if a < 0 {
        assert q * b == -m * B;
      } else {
        assert q * b == -m * -B == m * B;
      }
    }
  }

  /** `b` raised to the power `e`: `b^0 = 1` and `b^(k+1) = b * b^k`. */
  function Power(b: int, e: nat): (r: int)
    ensures b > 0 ==> r > 0
    ensures b == 0 ==> (r == 0 <==> e > 0)
    ensures b == 1 ==> r == 1
  {
    if e == 0 then 1 else b * Power(b, e - 1)
  }

  /** `handle_unop`. */
  function HandleUnop(op: UnaryOp, v: int): (r: Result<int>)
    ensures r.Ok? && r.value + v == 0
  {
    match op
    case Neg => Ok(v * -1)
  }

  /** `handle_binop`; a zero divisor is excluded, as the source panics on it. */
  function HandleBinop(op: BinaryOp, left: int, right: int): (r: Result<int>)
    requires op == Div ==> right != 0
    ensures r.Err? <==> op == BinaryOp.Pow && right < 0
    ensures r.Err? ==> r.error == NegativePower
  {
    match op
    case Mul => Ok(left * right)
    case Div => Ok(TruncDiv(left, right))
    case Add => Ok(left + right)
    case Sub => Ok(left - right)
    case Pow =>
      if right >= 0 then Ok(Power(left, right))
      else Err(NegativePower)
  }

  /** Evaluation never reaches a division whose divisor is zero.  The left
      operand is evaluated first, so a failing left operand hides the right
      one, and a failing right operand hides the division. */
  predicate DivisionsDefined(e: Expr)
    requires WellFormed(e)
    decreases e, 0
  {
    match e
    case Literal(_) => true
    case Unary(x) => DivisionsDefined(x)
    case Binary(l, op, r) =>
      DivisionsDefined(l) &&
      (Interpret(l).Ok? ==>
        DivisionsDefined(r) &&
        (op == Divide && Interpret(r).Ok? ==> Interpret(r).value != 0))
  }

  /** `interpret`: evaluate the left operand, then the right one, then
      apply the operator; the first error is returned unchanged.  The only
      error is a negative exponent, and a tree without `^` never fails. */
  function Interpret(e: Expr): (r: Result<int>)
    requires WellFormed(e) && DivisionsDefined(e)
    ensures r.Err? ==> r.error == NegativePower
    ensures PowFree(e) ==> r.Ok?
    decreases e, 1
  {
    match e
    case Literal(n) => Ok(n)
    case Unary(x) =>
      var v :- Interpret(x);
      HandleUnop(Neg, v)
    case Binary(l, op, r) =>
      var v1 :- Interpret(l);
      var v2 :- Interpret(r);
      HandleBinop(OpOf(op), v1, v2)
  }

  /** No `^` anywhere in the tree. */
  predicate PowFree(e: Expr) {
    match e
    case Literal(_) => true
    case Unary(x) => PowFree(x)
    case Binary(l, op, r) => op != Token.Pow && PowFree(l) && PowFree(r)
  }
}
