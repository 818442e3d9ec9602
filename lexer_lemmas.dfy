/** Properties of the lexer: the unit tests of src/lexer.rs, where the
    stream stops, and a round trip through a textual rendering. */
module LexerProperties {
  import opened Results
  import opened Lexing

  // ---------------------------------------------------------------------
  // Lexing depends only on the text still ahead of the cursor.

  lemma {:induction false} SkipSpacesShift(s: seq<char>, i: nat, t: seq<char>, j: nat)
    requires i <= |s| && j <= |t| && s[i..] == t[j..]
    ensures SkipSpaces(s, i) - i == SkipSpaces(t, j) - j
    decreases |s| - i
  {
    if i < |s| {
      assert s[i] == s[i..][0] == t[j..][0] == t[j];
      if s[i] == ' ' {
        assert s[i + 1..] == s[i..][1..] == t[j..][1..] == t[j + 1..];
        SkipSpacesShift(s, i + 1, t, j + 1);
      }
    }
  }

  lemma {:induction false} DigitRunEndShift(s: seq<char>, i: nat, t: seq<char>, j: nat)
    requires i <= |s| && j <= |t| && s[i..] == t[j..]
    ensures DigitRunEnd(s, i) - i == DigitRunEnd(t, j) - j
    decreases |s| - i
  {
    if i < |s| {
      assert s[i] == s[i..][0] == t[j..][0] == t[j];
      if IsDigit(s[i]) {
        assert s[i + 1..] == s[i..][1..] == t[j..][1..] == t[j + 1..];
        DigitRunEndShift(s, i + 1, t, j + 1);
      }
    }
  }

  lemma StepShift(s: seq<char>, i: nat, t: seq<char>, j: nat)
    requires i <= |s| && j <= |t| && s[i..] == t[j..]
    ensures Step(s, i).None? <==> Step(t, j).None?
    ensures Step(s, i).Some? ==>
      Step(t, j) == Some(Lexed(Step(s, i).value.tok, Step(s, i).value.next - i + j))
  {
    SkipSpacesShift(s, i, t, j);
    var a, b := SkipSpaces(s, i), SkipSpaces(t, j);
    if a < |s| {
      assert s[a] == s[i..][a - i] == t[j..][b - j] == t[b];
      if SymbolToken(s[a]).None? && IsDigit(s[a]) {
        assert s[a..] == t[b..];
        DigitRunEndShift(s, a, t, b);
        var ka, kb := DigitRunEnd(s, a), DigitRunEnd(t, b);
        assert s[a..ka] == t[b..kb];
      }
    }
  }

  /** `LexFrom(s, i)` is the lexing of the rest of the text, `s[i..]`. */
  lemma {:induction false} LexFromShift(s: seq<char>, i: nat, t: seq<char>, j: nat)
    requires i <= |s| && j <= |t| && s[i..] == t[j..]
    ensures LexFrom(s, i) == LexFrom(t, j)
    decreases |s| - i
  {
    StepShift(s, i, t, j);
    if Step(s, i).Some? {
      var l := Step(s, i).value;
      var k := l.next - i + j;
      assert Step(t, j) == Some(Lexed(l.tok, k));
      SuffixShift(s, i, l.next, t, j);
      var rest := LexFrom(s, l.next);
      LexFromShift(s, l.next, t, k);
      assert LexFrom(s, i) == [l.tok] + rest;
      assert LexFrom(t, j) == [l.tok] + rest;
    } else {
      assert LexFrom(s, i) == [] == LexFrom(t, j);
    }
  }

  /** Equal suffixes stay equal when both are shortened by the same amount. */
  lemma SuffixShift(s: seq<char>, i: nat, n: nat, t: seq<char>, j: nat)
    requires i <= n <= |s| && j <= |t| && s[i..] == t[j..]
    ensures n - i + j <= |t| && s[n..] == t[n - i + j..]
  {
    assert s[n..] == s[i..][n - i..];
    assert t[n - i + j..] == t[j..][n - i..];
  }

  lemma LexFromSuffix(s: seq<char>, i: nat)
    requires i <= |s|
    ensures LexFrom(s, i) == TokensOf(s[i..])
  {
    LexFromShift(s, i, s[i..], 0);
  }

  /** A token followed by the rest of the text: lex the token, then go on
      from just after it. */
  lemma StepThenRest(s: seq<char>, l: Lexed)
    requires Step(s, 0) == Some(l)
    ensures TokensOf(s) == [l.tok] + TokensOf(s[l.next..])
  {
    LexFromSuffix(s, l.next);
  }

  /** A space yields no token. */
  lemma SpaceSkipped(s: seq<char>, i: nat)
    requires i < |s| && s[i] == ' '
    ensures LexFrom(s, i) == LexFrom(s, i + 1)
  {
    assert SkipSpaces(s, i) == SkipSpaces(s, i + 1);
  }

  /** Each of the six symbols becomes exactly its own token. */
  lemma SymbolAlone(s: seq<char>, i: nat)
    requires i < |s| && SymbolToken(s[i]).Some?
    ensures LexFrom(s, i) == [SymbolToken(s[i]).value] + LexFrom(s, i + 1)
  {
  }

  /** A maximal run of digits becomes one `Integer` holding its decimal
      value, read left to right. */
  lemma DigitRun(s: seq<char>, i: nat, j: nat)
    requires i < j <= |s| && AllDigits(s[i..j]) && (j == |s| || !IsDigit(s[j]))
    ensures LexFrom(s, i) == [Integer(DecimalValue(s[i..j]))] + LexFrom(s, j)
  {
    DigitRunEndAt(s, i, j);
  }

  /** Consing tokens one at a time onto a tail. */
  lemma Regroup2(a: Token, b: Token, tail: seq<Token>)
    ensures [a] + ([b] + tail) == [a, b] + tail
  {
  }

  lemma Regroup3(a: Token, b: Token, c: Token, tail: seq<Token>)
    ensures [a] + ([b] + ([c] + tail)) == [a, b, c] + tail
  {
  }

  /** A symbol and the space after it yield the symbol's token. */
  lemma SymbolThenSpace(s: seq<char>, i: nat)
    requires i + 1 < |s| && SymbolToken(s[i]).Some? && s[i + 1] == ' '
    ensures LexFrom(s, i) == [SymbolToken(s[i]).value] + LexFrom(s, i + 2)
  {
    SpaceSkipped(s, i + 1);
    SymbolAlone(s, i);
  }

  /** A lone digit and the space after it yield one `Integer`. */
  lemma DigitThenSpace(s: seq<char>, i: nat)
    requires i + 1 < |s| && IsDigit(s[i]) && s[i + 1] == ' '
    ensures LexFrom(s, i) == [Integer(DigitValue(s[i]))] + LexFrom(s, i + 2)
  {
    SpaceSkipped(s, i + 1);
    OneDigit(s, i);
  }

  /** A lone digit becomes an `Integer` holding its value. */
  lemma OneDigit(s: seq<char>, i: nat)
    requires i < |s| && IsDigit(s[i]) && (i + 1 == |s| || !IsDigit(s[i + 1]))
    ensures LexFrom(s, i) == [Integer(DigitValue(s[i]))] + LexFrom(s, i + 1)
  {
    var d := s[i..i + 1];
    assert d[0] == s[i] && d[..0] == [];
    DigitRun(s, i, i + 1);
  }

  lemma {:induction false} DigitRunEndAt(s: seq<char>, i: nat, j: nat)
    requires i <= j <= |s| && AllDigits(s[i..j]) && (j == |s| || !IsDigit(s[j]))
    ensures DigitRunEnd(s, i) == j
    decreases j - i
  {
    if i < j {
      assert s[i] == s[i..j][0];
      assert s[i + 1..j] == s[i..j][1..];
      DigitRunEndAt(s, i + 1, j);
    }
  }

  lemma {:induction false} DigitRunAll(d: seq<char>, i: nat)
    requires i <= |d| && AllDigits(d)
    ensures DigitRunEnd(d, i) == |d|
    decreases |d| - i
  {
    if i < |d| {
      DigitRunAll(d, i + 1);
    }
  }

  // ---------------------------------------------------------------------
  // The unit tests of src/lexer.rs.

  lemma LexEmptyParens()
    ensures TokensOf("()") == [LParen, RParen]
  {
  }

  lemma LexSimpleTokens()
    ensures TokensOf("*/+-") == [Times, Divide, Plus, Minus]
  {
    var s := "*/+-";
    assert LexFrom(s, 4) == [];
    SymbolAlone(s, 3);
    SymbolAlone(s, 2);
    assert LexFrom(s, 2) == [Plus, Minus];
    SymbolAlone(s, 1);
    SymbolAlone(s, 0);
  }

  lemma Value100()
    ensures DecimalValue("100") == 100
  {
    assert "100"[..2] == "10";
    assert "10"[..1] == "1";
    assert "1"[..0] == "";
  }

  lemma LexInteger()
    ensures TokensOf("100") == [Integer(100)]
  {
    var s := "100";
    Value100();
    assert s[0..3] == "100";
    DigitRun(s, 0, 3);
    assert LexFrom(s, 3) == [];
  }

  /** Spaces give no token; `-` is always its own token. */
  lemma LexMathExpression()
    ensures TokensOf("(100 + 2) - (-4)")
         == [LParen, Integer(100), Plus, Integer(2), RParen, Minus, LParen, Minus, Integer(4), RParen]
  {
    MathText("(100 + 2) - (-4)");
  }

  lemma MathText(s: seq<char>)
    requires s == "(100 + 2) - (-4)"
    ensures TokensOf(s)
         == [LParen, Integer(100), Plus, Integer(2), RParen, Minus, LParen, Minus, Integer(4), RParen]
  {
    MathChars(s);
    MathHundred(s, 0);
    MathPlusTwo(s, 5);
    MathMinusGroup(s, 10);
    MathEnd(s, 13);
    assert LexFrom(s, 16) == [];
    MathJoin();
  }

  lemma MathChars(s: seq<char>)
    requires s == "(100 + 2) - (-4)"
    ensures |s| == 16 && s[0] == '(' && s[1] == '1' && s[2] == '0' && s[3] == '0' && s[4] == ' '
    ensures s[5] == '+' && s[6] == ' ' && s[7] == '2' && s[8] == ')' && s[9] == ' '
    ensures s[10] == '-' && s[11] == ' ' && s[12] == '(' && s[13] == '-' && s[14] == '4' && s[15] == ')'
  {
  }

  lemma MathJoin()
    ensures [LParen, Integer(100)] + ([Plus, Integer(2), RParen] + ([Minus, LParen] + ([Minus, Integer(4), RParen] + [])))
         == [LParen, Integer(100), Plus, Integer(2), RParen, Minus, LParen, Minus, Integer(4), RParen]
  {
  }

  lemma MathHundred(s: seq<char>, i: nat)
    requires i + 5 <= |s| && s[i] == '(' && s[i + 1] == '1' && s[i + 2] == '0' && s[i + 3] == '0'
    requires s[i + 4] == ' '
    ensures LexFrom(s, i) == [LParen, Integer(100)] + LexFrom(s, i + 5)
  {
    SpaceSkipped(s, i + 4);
    Value100();
    assert s[i + 1..i + 4] == "100";
    DigitRun(s, i + 1, i + 4);
    SymbolAlone(s, i);
    Regroup2(LParen, Integer(100), LexFrom(s, i + 5));
  }

  lemma MathPlusTwo(s: seq<char>, i: nat)
    requires i + 5 <= |s| && s[i] == '+' && s[i + 1] == ' ' && s[i + 2] == '2' && s[i + 3] == ')'
    requires s[i + 4] == ' '
    ensures LexFrom(s, i) == [Plus, Integer(2), RParen] + LexFrom(s, i + 5)
  {
    SymbolThenSpace(s, i + 3);
    OneDigit(s, i + 2);
    SymbolThenSpace(s, i);
    Regroup3(Plus, Integer(2), RParen, LexFrom(s, i + 5));
  }

  lemma MathMinusGroup(s: seq<char>, i: nat)
    requires i + 3 <= |s| && s[i] == '-' && s[i + 1] == ' ' && s[i + 2] == '('
    ensures LexFrom(s, i) == [Minus, LParen] + LexFrom(s, i + 3)
  {
    SymbolAlone(s, i + 2);
    SymbolThenSpace(s, i);
    Regroup2(Minus, LParen, LexFrom(s, i + 3));
  }

  lemma MathEnd(s: seq<char>, i: nat)
    requires i + 3 <= |s| && s[i] == '-' && s[i + 1] == '4' && s[i + 2] == ')'
    ensures LexFrom(s, i) == [Minus, Integer(4), RParen] + LexFrom(s, i + 3)
  {
    SymbolAlone(s, i + 2);
    OneDigit(s, i + 1);
    SymbolAlone(s, i);
    Regroup3(Minus, Integer(4), RParen, LexFrom(s, i + 3));
  }

  /** The tokens of `3 * (2 + -4) `, the text before `^` in the
      evaluator's unit test. */
  lemma SimpleTextTokens(s: seq<char>)
    requires s == "3 * (2 + -4) "
    ensures TokensOf(s) == [Integer(3), Times, LParen, Integer(2), Plus, Minus, Integer(4), RParen]
  {
    SimpleTextChars(s);
    SimpleTextStart(s, 0);
    SimpleTextMiddle(s, 5);
    SimpleTextEnd(s, 10);
    assert LexFrom(s, 13) == [];
    SimpleTextJoin();
  }

  lemma SimpleTextChars(s: seq<char>)
    requires s == "3 * (2 + -4) "
    ensures |s| == 13 && s[0] == '3' && s[1] == ' ' && s[2] == '*' && s[3] == ' ' && s[4] == '('
    ensures s[5] == '2' && s[6] == ' ' && s[7] == '+' && s[8] == ' ' && s[9] == '-'
    ensures s[10] == '4' && s[11] == ')' && s[12] == ' '
  {
  }

  lemma SimpleTextJoin()
    ensures [Integer(3), Times, LParen] + ([Integer(2), Plus, Minus] + ([Integer(4), RParen] + []))
         == [Integer(3), Times, LParen, Integer(2), Plus, Minus, Integer(4), RParen]
  {
  }

  lemma SimpleTextStart(s: seq<char>, i: nat)
    requires i + 5 <= |s| && s[i] == '3' && s[i + 1] == ' ' && s[i + 2] == '*' && s[i + 3] == ' '
    requires s[i + 4] == '('
    ensures LexFrom(s, i) == [Integer(3), Times, LParen] + LexFrom(s, i + 5)
  {
    SymbolAlone(s, i + 4);
    SymbolThenSpace(s, i + 2);
    DigitThenSpace(s, i);
    Regroup3(Integer(3), Times, LParen, LexFrom(s, i + 5));
  }

  lemma SimpleTextMiddle(s: seq<char>, i: nat)
    requires i + 5 <= |s| && s[i] == '2' && s[i + 1] == ' ' && s[i + 2] == '+' && s[i + 3] == ' '
    requires s[i + 4] == '-'
    ensures LexFrom(s, i) == [Integer(2), Plus, Minus] + LexFrom(s, i + 5)
  {
    SymbolAlone(s, i + 4);
    SymbolThenSpace(s, i + 2);
    DigitThenSpace(s, i);
    Regroup3(Integer(2), Plus, Minus, LexFrom(s, i + 5));
  }

  lemma SimpleTextEnd(s: seq<char>, i: nat)
    requires i + 3 <= |s| && s[i] == '4' && s[i + 1] == ')' && s[i + 2] == ' '
    ensures LexFrom(s, i) == [Integer(4), RParen] + LexFrom(s, i + 3)
  {
    SymbolThenSpace(s, i + 1);
    OneDigit(s, i);
    Regroup2(Integer(4), RParen, LexFrom(s, i + 3));
  }

  // ---------------------------------------------------------------------
  // The first unrecognised character ends the stream.

  lemma {:induction false} SkipSpacesPrefix(p: seq<char>, s: seq<char>, i: nat)
    requires i <= |p| < |s| && s[..|p|] == p && s[|p|] != ' '
    ensures SkipSpaces(s, i) == SkipSpaces(p, i)
    decreases |p| - i
  {
    if i < |p| {
      assert s[i] == s[..|p|][i] == p[i];
      if p[i] == ' ' {
        SkipSpacesPrefix(p, s, i + 1);
      }
    }
  }

  lemma {:induction false} DigitRunEndPrefix(p: seq<char>, s: seq<char>, i: nat)
    requires i <= |p| < |s| && s[..|p|] == p && !IsDigit(s[|p|])
    ensures DigitRunEnd(s, i) == DigitRunEnd(p, i)
    decreases |p| - i
  {
    if i < |p| {
      assert s[i] == s[..|p|][i] == p[i];
      if IsDigit(p[i]) {
        DigitRunEndPrefix(p, s, i + 1);
      }
    }
  }

  /** Before the cut, the text and its extension take the same step. */
  lemma StepPrefix(p: seq<char>, s: seq<char>, i: nat)
    requires i <= |p| < |s| && s[..|p|] == p && !IsRecognised(s[|p|])
    ensures Step(s, i) == Step(p, i)
  {
    SkipSpacesPrefix(p, s, i);
    var j := SkipSpaces(p, i);
    if j < |p| {
      assert s[j] == s[..|p|][j] == p[j];
      if SymbolToken(p[j]).None? && IsDigit(p[j]) {
        DigitRunEndPrefix(p, s, j);
        var k := DigitRunEnd(p, j);
        assert s[j..k] == s[..|p|][j..k] == p[j..k];
      }
    }
  }

  lemma {:induction false} LexFromPrefix(p: seq<char>, s: seq<char>, i: nat)
    requires i <= |p| < |s| && s[..|p|] == p && !IsRecognised(s[|p|])
    ensures LexFrom(s, i) == LexFrom(p, i)
    decreases |p| - i
  {
    StepPrefix(p, s, i);
    if Step(p, i).Some? {
      var l := Step(p, i).value;
      var rest := LexFrom(p, l.next);
      LexFromPrefix(p, s, l.next);
      assert LexFrom(s, i) == [l.tok] + rest;
      assert LexFrom(p, i) == [l.tok] + rest;
    } else {
      assert LexFrom(s, i) == [] == LexFrom(p, i);
    }
  }

  /** Whatever follows a character that is not a space, one of the six
      symbols or a digit is dropped, and no error is raised. */
  lemma UnrecognisedEndsStream(p: seq<char>, c: char, q: seq<char>)
    requires !IsRecognised(c)
    ensures TokensOf(p + [c] + q) == TokensOf(p)
  {
    var s := p + [c] + q;
    assert s[..|p|] == p && s[|p|] == c;
    LexFromPrefix(p, s, 0);
  }

  /** `^` is one such character: the lexer as written cannot read it. */
  lemma CaretEndsStream(p: seq<char>, q: seq<char>)
    ensures TokensOf(p + "^" + q) == TokensOf(p)
  {
    UnrecognisedEndsStream(p, '^', q);
  }

  // ---------------------------------------------------------------------
  // Rendering tokens as text and lexing them back.

  function DigitChar(d: nat): (c: char)
    requires d < 10
    ensures IsDigit(c) && DigitValue(c) == d
  {
    ('0' as int + d) as char
  }

  /** The decimal numeral of `n`, without leading zeros. */
  function Decimal(n: nat): (d: seq<char>)
    ensures d != [] && AllDigits(d)
  {
    if n < 10 then [DigitChar(n)] else Decimal(n / 10) + [DigitChar(n % 10)]
  }

  lemma {:induction false} DecimalRoundTrip(n: nat)
    ensures DecimalValue(Decimal(n)) == n
  {
    var d := Decimal(n);
    if n >= 10 {
      assert d[..|d| - 1] == Decimal(n / 10);
      DecimalRoundTrip(n / 10);
    }
  }

  /** The text of one token the lexer can produce. */
  function TokenText(t: Token): (s: seq<char>)
    requires IsLexerToken(t)
    ensures s != [] && forall k :: 0 <= k < |s| ==> s[k] != ' '
  {
    match t
    case LParen => "("
    case RParen => ")"
    case Plus => "+"
    case Minus => "-"
    case Times => "*"
    case Divide => "/"
    case Integer(n) => Decimal(n)
  }

  /** Tokens written out and separated by single spaces. */
  function Render(toks: seq<Token>): seq<char>
    requires forall k :: 0 <= k < |toks| ==> IsLexerToken(toks[k])
  {
    if toks == [] then []
    else if |toks| == 1 then TokenText(toks[0])
    else TokenText(toks[0]) + " " + Render(toks[1..])
  }

  /** A token's text followed by nothing or by a space is lexed as that token. */
  lemma StepOnText(t: Token, rest: seq<char>)
    requires IsLexerToken(t)
    requires rest == [] || rest[0] == ' '
    ensures Step(TokenText(t) + rest, 0) == Some(Lexed(t, |TokenText(t)|))
  {
    var s := TokenText(t) + rest;
    var m := |TokenText(t)|;
    assert SkipSpaces(s, 0) == 0 by {
      assert s[0] == TokenText(t)[0];
    }
    if t.Integer? {
      var d := TokenText(t);
      assert s[..m] == d;
      DigitRunAll(d, 0);
      DigitRunEndPrefixAny(d, s, 0);
      assert s[0..m] == d;
      DecimalRoundTrip(t.n);
    }
  }

  /** The digit run of a numeral stops at its end when what follows is not
      a digit (or there is nothing). */
  lemma {:induction false} DigitRunEndPrefixAny(p: seq<char>, s: seq<char>, i: nat)
    requires i <= |p| <= |s| && s[..|p|] == p && (|p| < |s| ==> !IsDigit(s[|p|]))
    ensures DigitRunEnd(s, i) == DigitRunEnd(p, i)
    decreases |p| - i
  {
    if i < |p| {
      assert s[i] == s[..|p|][i] == p[i];
      if IsDigit(p[i]) {
        DigitRunEndPrefixAny(p, s, i + 1);
      }
    }
  }

  /** Rendering then lexing gives back every list of tokens the lexer can
      produce. */
  lemma {:induction false} LexRenderRoundTrip(toks: seq<Token>)
    requires forall k :: 0 <= k < |toks| ==> IsLexerToken(toks[k])
    ensures TokensOf(Render(toks)) == toks
    decreases |toks|
  {
    if toks == [] {
    } else if |toks| == 1 {
      RenderOne(toks[0]);
      assert toks == [toks[0]];
    } else {
      RenderCons(toks);
      LexRenderRoundTrip(toks[1..]);
      assert toks == [toks[0]] + toks[1..];
    }
  }

  /** A single token's text lexes to that token. */
  lemma RenderOne(t: Token)
    requires IsLexerToken(t)
    ensures TokensOf(Render([t])) == [t]
  {
    var s := Render([t]);
    StepOnText(t, []);
    assert s == TokenText(t) + [];
    StepThenRest(s, Lexed(t, |s|));
    assert s[|s|..] == [];
  }

  /** The first token's text, then a space, then the rest of the rendering:
      the first token, then the tokens of the rest. */
  lemma RenderCons(toks: seq<Token>)
    requires |toks| > 1 && forall k :: 0 <= k < |toks| ==> IsLexerToken(toks[k])
    ensures TokensOf(Render(toks)) == [toks[0]] + TokensOf(Render(toks[1..]))
  {
    var text := TokenText(toks[0]);
    var r := Render(toks[1..]);
    var s := Render(toks);
    assert s == text + " " + r;
    AppendAssoc(text, " ", r);
    StepOnText(toks[0], " " + r);
    StepThenRest(s, Lexed(toks[0], |text|));
    assert s[|text|..] == " " + r;
    LeadingSpace(r);
  }

  lemma AppendAssoc(a: seq<char>, b: seq<char>, c: seq<char>)
    ensures a + b + c == a + (b + c)
  {
  }

  /** A leading space yields no token. */
  lemma LeadingSpace(r: seq<char>)
    ensures TokensOf(" " + r) == TokensOf(r)
  {
    var s := " " + r;
    SpaceSkipped(s, 0);
    assert s[1..] == r;
    LexFromSuffix(s, 1);
  }
}
