/** The lexer of src/lexer.rs: it turns a line of text into tokens.

    A `Lexer` holds the text and a cursor into it; each call of `Next`
    skips spaces and produces at most one token.  The pure functions
    `Step`, `LexFrom` and `TokensOf` say what `Next` and `Lex` compute. */
module Lexing {
  import opened Results

  /** The token vocabulary.  `Pow` is read by the parser; the lexer as
      written never produces it (it has no rule for `^`). */
  datatype Token =
    | LParen
    | RParen
    | Plus
    | Minus
    | Times
    | Divide
    | Pow
    | Integer(n: int)

  predicate IsDigit(c: char) {
    '0' <= c <= '9'
  }

  function DigitValue(c: char): (d: nat)
    requires IsDigit(c)
    ensures d < 10
  {
    (c as int) - ('0' as int)
  }

  /** The token of each of the six one-character symbols the lexer knows. */
  function SymbolToken(c: char): Option<Token> {
    match c
    case '(' => Some(LParen)
    case ')' => Some(RParen)
    case '*' => Some(Times)
    case '/' => Some(Divide)
    case '+' => Some(Plus)
    case '-' => Some(Minus)
    case _ => None
  }

  /** Characters the lexer does not stop at. */
  predicate IsRecognised(c: char) {
    c == ' ' || SymbolToken(c).Some? || IsDigit(c)
  }

  /** Tokens the lexer can produce: never `Pow`, never a negative integer. */
  predicate IsLexerToken(t: Token) {
    t != Pow && (t.Integer? ==> t.n >= 0)
  }

  predicate AllDigits(d: seq<char>) {
    forall k :: 0 <= k < |d| ==> IsDigit(d[k])
  }

  /** The value of a digit string read left to right, `number * 10 + digit`
      at each step. */
  function DecimalValue(d: seq<char>): (v: nat)
    requires AllDigits(d)
    ensures v == 0 <==> forall k :: 0 <= k < |d| ==> d[k] == '0'
  {
    if d == [] then 0
    else
      var init := d[..|d| - 1];
      assert forall k :: 0 <= k < |init| ==> init[k] == d[k];
      DecimalValue(init) * 10 + DigitValue(d[|d| - 1])
  }

  /** The first position at or after `i` that does not hold a space. */
  function SkipSpaces(s: seq<char>, i: nat): (j: nat)
    requires i <= |s|
    ensures i <= j <= |s|
    ensures forall k :: i <= k < j ==> s[k] == ' '
    ensures j == |s| || s[j] != ' '
    decreases |s| - i
  {
    if i < |s| && s[i] == ' ' then SkipSpaces(s, i + 1) else i
  }

  /** The end of the maximal run of digits that starts at `i`. */
  function DigitRunEnd(s: seq<char>, i: nat): (j: nat)
    requires i <= |s|
    ensures i <= j <= |s|
    ensures AllDigits(s[i..j])
    ensures j == |s| || !IsDigit(s[j])
    decreases |s| - i
  {
    if i < |s| && IsDigit(s[i]) then DigitRunEnd(s, i + 1) else i
  }

  /** One token and the position just after it. */
  datatype Lexed = Lexed(tok: Token, next: nat)

  /** What one call of `Lexer::next` produces from position `i`: skip the
      spaces, then a symbol token, a maximal digit run, or nothing. */
  function Step(s: seq<char>, i: nat): (r: Option<Lexed>)
    requires i <= |s|
    ensures r.Some? ==> i < r.value.next <= |s| && IsLexerToken(r.value.tok)
  {
    var j := SkipSpaces(s, i);
    if j == |s| then None
    else if SymbolToken(s[j]).Some? then Some(Lexed(SymbolToken(s[j]).value, j + 1))
    else if IsDigit(s[j]) then
      var k := DigitRunEnd(s, j);
      Some(Lexed(Integer(DecimalValue(s[j..k])), k))
    else None
  }

  /** Every token the lexer produces from position `i` on.  Each token uses
      up at least one character, so there are at most `|s| - i` of them. */
  function LexFrom(s: seq<char>, i: nat): (r: seq<Token>)
    requires i <= |s|
    ensures |r| <= |s| - i
    ensures forall k :: 0 <= k < |r| ==> IsLexerToken(r[k])
    decreases |s| - i
  {
    match Step(s, i)
    case None => []
    case Some(l) => [l.tok] + LexFrom(s, l.next)
  }

  /** The tokens of a whole line: what `lex` returns. */
  function TokensOf(s: seq<char>): (r: seq<Token>)
    ensures |r| <= |s|
    ensures forall k :: 0 <= k < |r| ==> IsLexerToken(r[k])
  {
    LexFrom(s, 0)
  }

  /** The character iterator of the source, as a text and a cursor. */
  class Lexer {
    const input: seq<char>
    var pos: nat

    ghost predicate Valid()
      reads this
    {
      pos <= |input|
    }

    constructor (input: seq<char>)
      ensures Valid() && this.input == input && pos == 0
    {
      this.input := input;
      pos := 0;
    }

    /** Consumes the character under the cursor and yields `t`. */
    method AdvanceToken(t: Token) returns (r: Option<Token>)
      requires Valid() && pos < |input|
      modifies this
      ensures Valid() && pos == old(pos) + 1 && r == Some(t)
    {
      pos := pos + 1;
      r := Some(t);
    }

    /** Skips the spaces under the cursor. */
    method SkipWhitespace()
      requires Valid()
      modifies this
      ensures Valid() && pos == SkipSpaces(input, old(pos))
    {
      while pos < |input| && input[pos] == ' '
        invariant old(pos) <= pos <= |input|
        invariant SkipSpaces(input, pos) == SkipSpaces(input, old(pos))
      {
        pos := pos + 1;
      }
    }

    /** Reads the maximal run of digits under the cursor, accumulating
        `number * 10 + digit` from left to right. */
    method ReadNumber() returns (number: nat)
      requires Valid() && pos < |input| && IsDigit(input[pos])
      modifies this
      ensures Valid() && pos == DigitRunEnd(input, old(pos))
      ensures number == DecimalValue(input[old(pos)..pos])
    {
      var start := pos;
      number := DigitValue(input[pos]);
      pos := pos + 1;
      assert input[start..pos] == [input[start]];
      while pos < |input| && IsDigit(input[pos])
        invariant start < pos <= |input|
        invariant AllDigits(input[start..pos])
        invariant number == DecimalValue(input[start..pos])
        invariant DigitRunEnd(input, pos) == DigitRunEnd(input, start)
      {
        assert input[start..pos + 1][..pos - start] == input[start..pos];
        number := number * 10 + DigitValue(input[pos]);
        pos := pos + 1;
      }
    }

    /** The next token, or `None` at the end of the text or at the first
        character that is not a space, a symbol or a digit. */
    method Next() returns (t: Option<Token>)
      requires Valid()
      modifies this
      ensures Valid()
      ensures match Step(input, old(pos))
              case None => t == None && pos == SkipSpaces(input, old(pos))
              case Some(l) => t == Some(l.tok) && pos == l.next
    {
      SkipWhitespace();
      if pos == |input| {
        return None;
      }
      var c := input[pos];
      match c
      case '(' => t := AdvanceToken(LParen);
      case ')' => t := AdvanceToken(RParen);
      case '*' => t := AdvanceToken(Times);
      case '/' => t := AdvanceToken(Divide);
      case '+' => t := AdvanceToken(Plus);
      case '-' => t := AdvanceToken(Minus);
      case _ =>
        if IsDigit(c) {
          var number := ReadNumber();
          t := Some(Integer(number));
        } else {
          t := None;
        }
    }
  }

  /** `lex`: collects the lexer's tokens until it yields `None`. */
  method Lex(input: seq<char>) returns (toks: seq<Token>)
    ensures toks == TokensOf(input)
  {
    var lexer := new Lexer(input);
    toks := [];
    var done := false;
    while !done
      invariant lexer.Valid() && lexer.input == input
      invariant !done ==> toks + LexFrom(input, lexer.pos) == TokensOf(input)
      invariant done ==> toks == TokensOf(input)
      decreases |input| - lexer.pos, !done
    {
      var t := lexer.Next();
      match t
      case None =>
        done := true;
      case Some(tok) =>
        toks := toks + [tok];
    }
  }
}
