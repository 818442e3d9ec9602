# rust-calc in Dafny

A model of the three-stage pipeline of the `rust-calc` integer calculator, with proofs about it.

1. **The lexer** (`src/lexer.rs`) turns a line of text into tokens.
   - It skips spaces.
   - It turns each of `( ) * / + -` into its own token.
   - It reads a maximal run of digits as one `Integer`.
   - It stops, without an error, at the first character it does not know.
2. **The Pratt parser** (`src/parser.rs`) turns tokens into an `Expr` tree.
   - Each token has a null denotation (`nud`), a left denotation (`led`) and a left binding power (`lbp`).
   - `expression(rbp)` parses one term. It then folds operators into the term while the next token binds tighter than `rbp`.
3. **The evaluator** (`src/interpreter.rs`) folds a tree into an integer. Its one error is a negative exponent.

## Files

| file | module | models |
|---|---|---|
| `results.dfy` | `Results` | The error messages as one datatype, plus `Option` and `Result`. |
| `lexer.dfy` | `Lexing` | Tokens; the lexing functions `Step`, `LexFrom` and `TokensOf`; the class `Lexer` with `Next`, `AdvanceToken`, `SkipWhitespace` and `ReadNumber`; the method `Lex`. |
| `lexer_lemmas.dfy` | `LexerProperties` | The lexer's unit tests, the early stop, and a render-then-lex round trip. |
| `parser.dfy` | `Parsing` | The tree; cursor-passing functions for `expression`, `nud`, `led`, `parse_nud` and `parse_led`; the class `Parser`, whose methods are proved to compute those functions; `Parse`. |
| `parser_lemmas.dfy` | `ParserProperties` | Precedence and associativity, where `expression` stops, the error branches, and an unparse-then-parse round trip. |
| `interpreter.dfy` | `Interpreter` | `interpret`, `handle_unop`, `handle_binop`, Rust's truncating division, and powers. |
| `interpreter_lemmas.dfy` | `InterpreterProperties` | Evaluation order, operator meaning, division and power laws, and whole-expression values. |

## Modelling decisions

- **Tokens.** `Token` has a `Pow` constructor, because the parser matches on it (`src/parser.rs:58`, `src/parser.rs:70`). The lexer has no rule for `^`, so `^` ends the token stream like any other unknown character (`src/lexer.rs:71`).
- **Tree shape.** `Expr` follows `src/parser.rs:9-14`: `Unary(e)` is negation, and `Binary(l, t, r)` keeps the operator token. The evaluator maps tokens to the operators of `handle_binop`: `*` to `Mul`, `/` to `Div`, `+` to `Add`, `-` to `Sub` and `^` to `Pow`.
- **Parsing text.** `Parse(s)` lexes and then parses, and is proved equal to `ParseTokens(TokensOf(s))`.
- **Values.** Values are unbounded integers. Apart from overflow, two Rust operations differ from their Dafny counterparts. `/` truncates toward zero; `TruncDiv` models it. `pow` receives its exponent through `as u32`, which keeps only the low 32 bits; `Power` uses the whole exponent (see "Left out").
- **Errors.** Rust reports failures as strings. `CalcError` has one constructor per message, and `Message` returns the exact text.
- **State.** The lexer and the parser keep a cursor in a class field. The Rust code keeps it in a `Peekable` iterator.
  - Each class method is proved to compute a pure function that passes the cursor explicitly.
  - The properties are proved about those functions.

Behaviour of the code that the model keeps as it is:

- The code never checks that all tokens were consumed, so `"2 2"` parses as `Literal(2)` (`TrailingInputIgnored`).
- The lexer has no rule for `^`, although the parser handles `Pow`: a `^` ends the token stream (`CaretEndsStream`).
- Division by zero is not a recoverable error in the code: Rust panics. The model makes it a precondition (`DivisionsDefined`) and has no division-by-zero error.
- The evaluator's test at `src/interpreter.rs:47-52` passes the text `"3 * (2 + -4) ^ 4 / 2"` to `parse_and_lex`, which is not part of this model. Two results are proved instead. `EvalSimpleTokens`: the token list of that line, `Pow` included, evaluates to `24`. `EvalSimpleText`: the text itself, lexed by this lexer, evaluates to `-6`, because the lexer stops at `^` and only `3 * (2 + -4)` is parsed.

## Model

| member | source | states |
|---|---|---|
| Results.Message | src/parser.rs:40-62 | Every error has a non-empty message, the text the source returns. |
| Results.MessagesDistinct | src/interpreter.rs:31 | No two errors share a message, so the text identifies the error. |
| Lexing.DigitValue | src/lexer.rs:53-60 | A digit character's value is below ten. |
| Lexing.DecimalValue | src/lexer.rs:62-67 | A digit string's value is zero exactly when every digit is `0`. |
| Lexing.SkipSpaces | src/lexer.rs:41-43 | The first position at or after `i` that is not a space; every skipped character is a space. |
| Lexing.DigitRunEnd | src/lexer.rs:62-67 | The end of the maximal digit run starting at `i`: all digits before it, a non-digit or the end after it. |
| Lexing.Step | src/lexer.rs:39-76 | A token, when produced, consumes at least one character and is never `Pow` or a negative integer. |
| Lexing.LexFrom | src/lexer.rs:19-21 | At most one token per remaining character; no `Pow` and no negative integer. |
| Lexing.TokensOf | src/lexer.rs:19-21 | `lex(s)` has at most as many tokens as `s` has characters, and never contains `Pow` or a negative `Integer`. |
| Lexing.Lexer.constructor | src/lexer.rs:24-28 | A lexer starts at the beginning of its text. |
| Lexing.Lexer.AdvanceToken | src/lexer.rs:30-33 | Consumes exactly one character and yields the given token. |
| Lexing.Lexer.SkipWhitespace | src/lexer.rs:41-43 | Moves the cursor past the spaces ahead of it, to `SkipSpaces` of the old cursor. |
| Lexing.Lexer.ReadNumber | src/lexer.rs:53-69 | Moves the cursor to the end of the digit run and returns the run's decimal value, accumulated as `number * 10 + digit`. |
| Lexing.Lexer.Next | src/lexer.rs:39-76 | Computes `Step`. The cursor ends just after the token, or just after the skipped spaces when there is none. |
| Lexing.Lex | src/lexer.rs:19-21 | Collecting `Next` until it yields nothing gives exactly `TokensOf(input)`. |
| LexerProperties.LexFromShift | src/lexer.rs:39-76 | Lexing depends only on the text still ahead of the cursor. |
| LexerProperties.SpaceSkipped | src/lexer.rs:41-43 | A space yields no token. |
| LexerProperties.LeadingSpace | src/lexer.rs:41-43 | A leading space does not change the tokens of a text. |
| LexerProperties.SymbolAlone | src/lexer.rs:47-52 | Each of the six symbols becomes exactly its own token, `-` included. |
| LexerProperties.DigitRun | src/lexer.rs:53-69 | A maximal digit run becomes one `Integer` holding its decimal value, accumulated left to right. |
| LexerProperties.LexEmptyParens | src/lexer.rs:84-87 | `lex("()") = [LParen, RParen]`. |
| LexerProperties.LexSimpleTokens | src/lexer.rs:90-96 | `lex("*/+-") = [Times, Divide, Plus, Minus]`. |
| LexerProperties.LexInteger | src/lexer.rs:99-102 | `lex("100") = [Integer(100)]`. |
| LexerProperties.LexMathExpression | src/lexer.rs:105-122 | `lex("(100 + 2) - (-4)")` is exactly the ten tokens of the test; spaces produce nothing. |
| LexerProperties.UnrecognisedEndsStream | src/lexer.rs:71 | After a character that is not a space, a symbol or a digit, everything is dropped without an error: `lex(p + [c] + q) = lex(p)`. |
| LexerProperties.CaretEndsStream | src/lexer.rs:45-72 | `^` is such a character: `lex(p + "^" + q) = lex(p)`. |
| LexerProperties.SimpleTextTokens | src/lexer.rs:39-76 | The text before `^` in the evaluator's test lexes to `[3, *, (, 2, +, -, 4, )]`. |
| LexerProperties.DecimalRoundTrip | src/lexer.rs:62-67 | Accumulating the digits of the decimal numeral of `n` gives `n` back. |
| LexerProperties.StepOnText | src/lexer.rs:45-70 | A token's text followed by a space or by nothing is lexed as that token. |
| LexerProperties.LexRenderRoundTrip | src/lexer.rs:39-76 | Rendering any list of tokens the lexer can produce, joined by single spaces, and lexing the text gives the same list back. |
| Parsing.Lbp | src/parser.rs:68-75 | A binding power is positive exactly for the five operators, and never above 30. |
| Parsing.ExprAt | src/parser.rs:89-96 | On success `expression` consumes at least one token, ends at a token with `lbp <= rbp` or at the end, and builds a tree whose binary nodes carry operators. Its errors are only "incomplete", "expecting literal" and "unbalanced parens". |
| Parsing.LoopAt | src/parser.rs:91-95 | The loop stops at the end or at a token with `lbp <= rbp`; it keeps trees well formed and raises only the three parse errors. |
| Parsing.NextBindsTighterThan | src/parser.rs:98-100 | Only an operator token ahead can bind tighter than `rbp`, and none binds tighter than 30. |
| Parsing.ParseNudAt | src/parser.rs:102-106 | At the end of the tokens `parse_nud` is "incomplete"; on success it consumes at least one token and builds a well-formed tree; it fails only with the three parse errors. |
| Parsing.ParseLedAt | src/parser.rs:108-112 | At the end of the tokens `parse_led` is "incomplete"; on success it consumes at least one token; at a binding token it never reports "expecting operator". |
| Parsing.NudOf | src/parser.rs:31-48 | The null denotation builds well-formed trees and fails only with the three parse errors. |
| Parsing.LedOf | src/parser.rs:52-64 | The left denotation of an operator never reports "expecting operator" and keeps trees well formed. |
| Parsing.RightBp | src/parser.rs:54-61 | The right operand's binding power is below the operator's own exactly for `^`, and equal to it otherwise. |
| Parsing.ParseTokens | src/parser.rs:85-87 | `parse_expr` yields a tree whose binary nodes carry operator tokens, or one of the three parse errors. |
| Parsing.Parser.constructor | src/parser.rs:79-83 | A parser starts at the first token. |
| Parsing.Parser.ParseExpr | src/parser.rs:85-87 | Computes `ExprAt(toks, pos, 0)`: the same tree and end position, or the same error. |
| Parsing.Parser.Expression | src/parser.rs:89-96 | Computes `ExprAt`. Its loop keeps `ExprAt(start) == LoopAt(left, pos)`. |
| Parsing.Parser.ParseNud | src/parser.rs:102-106 | Computes `ParseNudAt`. |
| Parsing.Parser.ParseLed | src/parser.rs:108-112 | Computes `ParseLedAt`. |
| Parsing.Parser.Nud | src/parser.rs:31-48 | Computes `NudOf`. |
| Parsing.Parser.Led | src/parser.rs:52-64 | Computes `LedOf`. |
| Parsing.ParseText | src/parser.rs:16-20 | `parse` on text yields a well-formed tree or one of the three parse errors; text with no token, such as the empty line, is "incomplete". |
| Parsing.Parse | src/parser.rs:16-20 | `parse(s)` is `ParseTokens(lex(s))`. |
| ParserProperties.BindingPowers | src/parser.rs:68-75 | `lbp(^) = 30`, `lbp(*) = lbp(/) = 20`, `lbp(+) = lbp(-) = 10`, every other token 0. |
| ParserProperties.LedByRightBp | src/parser.rs:52-64 | Every operator parses its right operand with its own binding power, or with one less for `^`, and builds a binary node. |
| ParserProperties.LedOnlyAtOperator | src/parser.rs:98-112 | The loop calls `parse_led` only at an operator. So `parse_led`'s "incomplete" and `led`'s "expecting operator" are unreachable from it. |
| ParserProperties.HighBindingPowerTakesOneTerm | src/parser.rs:89-100 | With `rbp >= 30` the loop never runs, and `expression` is a single `nud` term. |
| ParserProperties.MinusOperandIsOneTerm | src/parser.rs:34-36 | The operand of prefix minus is exactly one term. |
| ParserProperties.NegationBindsTighterThanPow | src/parser.rs:34-36 | `- 2 ^ 2` is `(-2) ^ 2`. |
| ParserProperties.LoopFolds | src/parser.rs:91-93 | One turn of the loop folds the next operator and its right operand into `left`. |
| ParserProperties.LoopStops | src/parser.rs:91-95 | The loop returns `left` unchanged before a token that does not bind tighter. |
| ParserProperties.LiteralThenStop | src/parser.rs:33 | An integer before a non-binding token is parsed as that literal alone. |
| ParserProperties.ThreeOperands | src/parser.rs:54-61 | `a o1 b o2 c` nests to the right exactly when `lbp(o2)` exceeds the right binding power of `o1`, and folds to the left otherwise. |
| ParserProperties.LeftAssociative | src/parser.rs:54-57 | `+ - * /` are left-associative. |
| ParserProperties.PowRightAssociative | src/parser.rs:58-61 | `^` is right-associative. |
| ParserProperties.SubtractionChain | src/parser.rs:54-57 | `1 - 2 - 3` is `(1 - 2) - 3`. |
| ParserProperties.PowChain | src/parser.rs:58-61 | `2 ^ 3 ^ 2` is `2 ^ (3 ^ 2)`. |
| ParserProperties.TimesBindsTighterThanPlus | src/parser.rs:68-75 | `1 + 2 * 3` is `1 + (2 * 3)`. |
| ParserProperties.ParseLiteralExpr | src/parser.rs:119-123 | `parse("2") = Literal(2)`. |
| ParserProperties.TrailingInputIgnored | src/parser.rs:85-100 | `parse("2 2") = Literal(2)`: tokens after the first complete expression are ignored. |
| ParserProperties.SimpleParses | src/interpreter.rs:47-52 | The tokens of `3 * (2 + -4) ^ 4 / 2` parse to `((3 * ((2 + -4) ^ 4)) / 2)`. |
| ParserProperties.SimpleTextParses | src/interpreter.rs:47-52 | The text `3 * (2 + -4) ^ 4 / 2` parses to `3 * (2 + -4)`, because the lexer stops at `^`. |
| ParserProperties.EndOfInputIsIncomplete | src/parser.rs:102-106 | Running out of input where a term is required is "incomplete". |
| ParserProperties.DanglingOperatorIsIncomplete | src/parser.rs:102-106 | An operator with no right operand is "incomplete". |
| ParserProperties.NotATermIsExpectingLiteral | src/parser.rs:46 | `)`, `*`, `/`, `+` or `^` in term position is "expecting literal". |
| ParserProperties.ParenthesisedTerm | src/parser.rs:38-45 | `(` followed by an expression and `)` is one term: the inner expression's tree, ending after the `)`. |
| ParserProperties.ParseParenLiteral | src/parser.rs:38-45 | The tokens `( 1 )` parse to `Literal(1)`. |
| ParserProperties.MissingCloseIsUnbalanced | src/parser.rs:38-45 | `(` whose inner expression is not followed by `)` is "unbalanced parens". |
| ParserProperties.UnclosedParen | src/parser.rs:38-45 | `( 1` and `( 1 2` are "unbalanced parens". |
| ParserProperties.GroupIsOneTerm | src/parser.rs:38-64 | `( l op r )` is one term whose tree is `Binary(l, op, r)`. |
| ParserProperties.NegationIsOneTerm | src/parser.rs:34-36 | `-` followed by a term is one term, its negation. |
| ParserProperties.UnparseIsOneTerm | src/parser.rs:31-64 | The fully parenthesised tokens of any well-formed tree are read back as that tree by `parse_nud`. |
| ParserProperties.UnparseRoundTrip | src/parser.rs:85-87 | `parse_expr` inverts the fully parenthesised rendering of every well-formed tree. |
| ParserProperties.TextRoundTrip | src/parser.rs:16-20 | Writing a `^`-free tree with non-negative literals as text, then lexing and parsing it, gives the tree back. |
| Interpreter.OpOf | src/interpreter.rs:7-10 | Distinct operator tokens stand for distinct operators: `TokenOf` takes each operator back to its token. |
| Interpreter.TokenOf | src/parser.rs:54-61 | Every operator is written by one of the five tokens that have a left denotation. |
| Interpreter.Power | src/interpreter.rs:29 | A positive base has a positive power; zero to a positive exponent is zero and to the exponent zero is one; one to any exponent is one. |
| Interpreter.TruncDiv | src/interpreter.rs:24 | Rust's `/`: the remainder is smaller than the divisor in size and lies on the dividend's side of zero. |
| Interpreter.HandleUnop | src/interpreter.rs:15-19 | Negation never fails, and its result plus the operand is zero. |
| Interpreter.HandleBinop | src/interpreter.rs:21-35 | Fails exactly for `Pow` with a negative right operand, and then with the negative-power error. |
| Interpreter.Interpret | src/interpreter.rs:3-13 | The only error is a negative power, and a tree without `^` always evaluates. |
| InterpreterProperties.EvalLiteral | src/interpreter.rs:42-45 | `interpret(Literal(2)) = Ok(2)`. |
| InterpreterProperties.InterpretNegation | src/interpreter.rs:6 | A negation is the negated value of its operand, or the operand's error unchanged. |
| InterpreterProperties.InterpretBinary | src/interpreter.rs:7-11 | The left operand's error comes first, then the right's; otherwise `handle_binop` applies to the two values. |
| InterpreterProperties.OperatorMeaning | src/interpreter.rs:21-35 | `+ - *` give `l + r`, `l - r`, `l * r`; `/` truncates; `^` is the power for `r >= 0` and an error for `r < 0`. |
| InterpreterProperties.NegativeExponentFails | src/interpreter.rs:27-33 | `a ^ b` with `b < 0` fails with "cannot raise number to negative power". |
| InterpreterProperties.LeftErrorWins | src/interpreter.rs:7-10 | A failing left operand hides the right operand and the operator, even a division by zero. |
| InterpreterProperties.DoubleNegation | src/interpreter.rs:15-18 | `- - x` has the value of `x`. |
| InterpreterProperties.SubtractIsAddNegation | src/interpreter.rs:17-26 | `l - r` and `l + -r` have the same value. |
| InterpreterProperties.TruncDivNonNegative | src/interpreter.rs:24 | For a non-negative dividend and a positive divisor, Rust's and Dafny's division agree. |
| InterpreterProperties.TruncDivSigns | src/interpreter.rs:24 | Negating either operand of `/` negates the quotient. |
| InterpreterProperties.TruncDivRoundsTowardZero | src/interpreter.rs:24 | `-7 / 2 = -3` in Rust, where Euclidean division gives `-4`. |
| InterpreterProperties.TruncDivUnique | src/interpreter.rs:24 | The truncated quotient is the only integer whose remainder is smaller than the divisor and lies on the dividend's side of zero. |
| InterpreterProperties.PowerAdd | src/interpreter.rs:29 | `b^(m+n) = b^m * b^n`. |
| InterpreterProperties.PowerOfNegation | src/interpreter.rs:29 | `(-b)^e` is `b^e` for even `e` and `-(b^e)` for odd `e`. |
| InterpreterProperties.PowerZero | src/interpreter.rs:28-29 | `b ^ 0 = 1` for every `b`, zero included. |
| InterpreterProperties.SubtractionChainValue | src/interpreter.rs:3-13 | `1 - 2 - 3` evaluates to `-4`. |
| InterpreterProperties.PowChainValue | src/interpreter.rs:3-13 | `2 ^ 3 ^ 2` evaluates to `512`. |
| InterpreterProperties.EvalSimpleTokens | src/interpreter.rs:47-52 | The tokens of `3 * (2 + -4) ^ 4 / 2` evaluate to `24`. |
| InterpreterProperties.EvalSimpleText | src/interpreter.rs:47-52 | The text `3 * (2 + -4) ^ 4 / 2`, lexed as written, evaluates to `-6`. |

## Left out

- `src/main.rs` is not part of this model. It is the read-eval-print loop over standard input and output, and only glues the three stages together.
- Interpreter.Interpret: values are unbounded integers, with no `i64` overflow. This affects digit accumulation (`src/lexer.rs:65`), negation, `*`, `+`, `-` and `pow` (`src/interpreter.rs:17`, `src/interpreter.rs:23-29`). Rust panics on such an overflow in debug builds and wraps in release builds.
- Interpreter.Power: takes the whole exponent. Rust's `right as u32` (`src/interpreter.rs:29`) silently keeps its low 32 bits in every build, so `0 ^ 4294967296` is `0.pow(0) = 1` in Rust but `Power(0, 4294967296) = 0` in the model.
- Interpreter.Interpret: requires `DivisionsDefined`, that evaluation never reaches a division by zero, because Rust panics there (`src/interpreter.rs:24`).
- Interpreter.TruncDiv: requires a non-zero divisor for the same reason. `i64::MIN / -1` also panics in Rust, in every build, because the quotient does not fit; the model returns `2^63`.
- Parsing.Parser.ParseExpr: after an error only the error is stated, not where the cursor stopped. The same holds for `Expression`, `ParseNud`, `ParseLed`, `Nud` and `Led`. No caller reads the cursor after a failure.
- The `Peekable` iterators over characters and tokens, lifetimes and `Box` are replaced by an index into a sequence.
- The evaluator's shape for `Unary` (`src/interpreter.rs:6`) carries a `UnaryOp`, which the parser never builds. The model evaluates the parser's `Unary(e)` as negation through `handle_unop` with `Neg`.
