# Postfix calculator, modelled in Dafny

This project models the evaluator of the Postfix-Calculator program. The
model covers `PostfixCalculator.evaluatePostfix` and the `history` list it
appends to. All of it is stated and proved in Dafny.

The evaluator reads a postfix (Reverse Polish) expression one
whitespace-separated token at a time, using a fresh operand stack:

- an `int` literal is pushed;
- each of `+ - * / % ^` pops the right operand, then the left one, and
  pushes the result;
- any other token fails;
- at the end exactly one value must remain.

That value is returned, and the line `expr + " = " + result` is appended
to the history. Every failure raises an exception before the history is
touched.

Files and modules:

- `JavaInt.dfy`: Java `int` arithmetic on unbounded integers. `+`, `-`
  and `*` wrap to 32 bits. `/` truncates toward zero, and its one overflow
  (`MIN / -1`) wraps. `%` takes the sign of the dividend. `(int) Math.pow`
  saturates.
- `Decimal.dfy`: the integer literals the scanner accepts (an optional
  sign, then ASCII digits). Also the decimal rendering Java uses when it
  appends an `int` to a string.
- `Tokens.dfy`: the scanner. Input is split at runs of
  `Character.isWhitespace`. Each word becomes a `Number` (an `int`
  literal), an `Op` (one of the six symbols) or an `Invalid` token.
- `Postfix.dfy`: the meaning of an expression. `Step` is one token's
  effect on the stack; its contract lists the failure rules. `Run` folds
  `Step` over the tokens, and `Evaluate` adds the "exactly one value"
  check. The lemmas cover the first failure deciding the outcome, the
  causes of each failure, the stack height, and operand order. A reference
  semantics on expression trees (`Eval`) is proved to agree with
  evaluating the tree's postfix form, both as tokens and as text.
- `Calculator.dfy`: the class `PostfixCalculator`, with its `history`
  field. `EvaluatePostfix` tokenises the text, runs the stack loop
  `EvaluateTokens` (a `while` loop over an explicit stack, proved against
  `Evaluate`), and appends the history line only on success.
- `Scenarios.dfy`: worked examples on expression texts (`3 4 +`, `6 2 -`,
  `6 2 /`, `5 0 /`, `3 +`, `4 abc +`, `2 3`, the empty text), plus the
  32-bit edge cases.

Failures are values of `Postfix.Failure`: `MissingOperand`,
`DivisionByZero`, `InvalidToken(token)` and `ExtraOperands`.
`Failure.Message` gives the text of the exception raised for each.
`evaluatePostfix` throws `InvalidPostfixExpressionException`; a failure
here is a `Result` value instead. The empty and leftover-operand cases
share one failure, as they share one message in the code. That message
says "extra operands" even when no operand is left.

## Model

| member | source | states |
|---|---|---|
| JavaInt.Wrap | PostfixCalculator.java:32-38 | the `int` result of `+`, `-`, `*` is the unique 32-bit value congruent to the exact result modulo 2^32, and equals it when it fits |
| JavaInt.TruncDivision | PostfixCalculator.java:44-50 | `(a / b) * b + a % b == a`; the remainder is smaller than the divisor in magnitude and is zero or has the dividend's sign; the quotient is no larger than the dividend |
| JavaInt.JavaRem | PostfixCalculator.java:50 | `%` on `int` never overflows: the remainder is smaller than the divisor in magnitude |
| JavaInt.JavaDiv | PostfixCalculator.java:44 | `a / b` on `int` is the quotient rounded toward zero, except for `MIN / -1`, which gives `MIN` |
| JavaInt.DivisionOverflow | PostfixCalculator.java:44 | `/` on `int` differs from the exact truncated quotient exactly when the operands are `MIN` and `-1`, and then gives `MIN` |
| JavaInt.Saturate | PostfixCalculator.java:53 | the `(int)` cast of `Math.pow` keeps in-range values and clamps larger ones to `MAX` and smaller ones to `MIN` |
| JavaInt.JavaPow | PostfixCalculator.java:53 | `a ^ b` with `b >= 0` is the exact power when it fits in an `int`, and otherwise `MAX` or `MIN` by its sign; with `b < 0` it is `MAX` for a zero base, 0 for a base of magnitude at least 2, 1 for a base of 1, and for -1 the sign of `(-1)^|b|` (1 for an even exponent, -1 for an odd one) |
| JavaInt.UnitPower | PostfixCalculator.java:53 | a power of 1 is 1; a power of -1 is 1 for an even exponent and -1 for an odd one |
| JavaInt.PowerStep | PostfixCalculator.java:38-53 | while the exact power fits in an `int`, `a ^ (b + 1)` equals `a * (a ^ b)` with `int` multiplication |
| Decimal.ParseInt | PostfixCalculator.java:20-21 | a word is an integer literal exactly when it is an optional `-` or `+` followed by one or more digits; a `-` gives a value at most zero, otherwise the value is at least zero |
| Decimal.NatToString | PostfixCalculator.java:69 | the digits of a natural number are non-empty and have no leading zero except for 0 itself |
| Decimal.IntToString | PostfixCalculator.java:69 | the rendering of a result starts with a minus sign exactly when it is negative, followed by a non-empty run of digits with no leading zero except for 0 itself |
| Decimal.NatToStringValue | PostfixCalculator.java:69 | the rendered digits denote the number |
| Decimal.LeadingZerosValue | PostfixCalculator.java:20-21 | leading zeros do not change the value of a digit string |
| Decimal.ParseSigned | PostfixCalculator.java:20-21 | an optional `+` or `-` in front of a digit string gives the value of the digits, negated after `-` |
| Decimal.ParseIntPadded | PostfixCalculator.java:20-21 | a literal made of an optional sign, any leading zeros and the digits of `n` is read as `n`, or `-n` after a `-` |
| Decimal.ParseIntToString | PostfixCalculator.java:20-21 | reading back a rendered integer gives that integer (round trip) |
| Tokens.Symbol | PostfixCalculator.java:17 | each operator is written as a one-character symbol |
| Tokens.OperatorOf | PostfixCalculator.java:17-24 | a word is in the operator set exactly when it is one of the six symbols, and it names that operator |
| Tokens.Delimiters | PostfixCalculator.java:16 | space, tab, line feed, carriage return, vertical tab, form feed and the ideographic space delimit tokens; the no-break spaces U+00A0, U+2007 and U+202F, the digits and the operator symbols do not |
| Tokens.Words | PostfixCalculator.java:16-23 | each scanned token is non-empty and contains no whitespace |
| Tokens.WordsOfBlankThen | PostfixCalculator.java:19 | delimiters before the first token are skipped |
| Tokens.WordsOfLayout | PostfixCalculator.java:16-23 | for words separated by delimiter runs of any length and kind, with optional runs at either end, the scanner yields exactly those words |
| Tokens.LayoutOfWords | PostfixCalculator.java:16-23 | every text is its scanned words separated by non-empty delimiter runs, with possibly empty runs at either end |
| Tokens.WordsCharacterised | PostfixCalculator.java:16-23 | the scanned words of a text are `ws` exactly when the text is `ws` laid out between delimiter runs |
| Tokens.Classify | PostfixCalculator.java:20-24 | a word is a number exactly when it is a literal in the `int` range, with that value; an operator only when it is that operator's symbol; otherwise invalid, carrying the word itself |
| Tokens.Tokenize | PostfixCalculator.java:16-24 | the evaluator sees one token per scanned word; an invalid token carries a non-empty word without whitespace |
| Tokens.WordsOfJoin | PostfixCalculator.java:16-23 | splitting words joined by spaces gives the words back |
| Tokens.ClassifySymbol | PostfixCalculator.java:24 | each operator symbol is read back as that operator |
| Tokens.ClassifyIntToString | PostfixCalculator.java:20-21 | each rendered `int` is read back as that number |
| Tokens.OutOfRangeIsInvalid | PostfixCalculator.java:20-24 | a literal outside the `int` range is not an integer to the scanner and falls into the invalid-token path |
| Tokens.TokenizeRender | PostfixCalculator.java:16-24 | tokenising the text of a sequence of numbers and operators gives the sequence back |
| Postfix.Failure.Message | PostfixCalculator.java:26-65 | every exception message starts with `Error: `, and the invalid-token message ends with the token in single quotes |
| Postfix.Apply | PostfixCalculator.java:30-57 | applying an operator fails exactly for `/` or `%` with a zero right operand, and then with division by zero |
| Postfix.Step | PostfixCalculator.java:20-60 | one token fails with a missing operand exactly for an operator on fewer than two values; with division by zero exactly for `/` or `%` over a zero top value; with an invalid token exactly for an invalid token, carrying its text; a number is pushed on top; an operator leaves everything below its two operands unchanged and lowers the stack by one |
| Postfix.Run | PostfixCalculator.java:19-62 | the token loop never fails with extra operands: that check comes after the loop |
| Postfix.Evaluate | PostfixCalculator.java:15-70 | an expression succeeds exactly when the token loop succeeds from an empty stack and leaves exactly one value, which is the result; a clean loop leaving any other number of values fails with extra operands; every other failure is the loop's own |
| Postfix.RunAppend | PostfixCalculator.java:19-62 | processing a concatenation is processing the first part and then the second from the stack it leaves; a failure in the first part is final |
| Postfix.FirstFailureDecides | PostfixCalculator.java:19-62 | the first failing token decides the outcome of the whole expression |
| Postfix.MissingOperandWhenShort | PostfixCalculator.java:24-27 | an operator reached with fewer than two values on the stack makes the evaluation fail with a missing operand |
| Postfix.InvalidTokenReported | PostfixCalculator.java:58-59 | an invalid token reached before any other failure is reported with exactly its text |
| Postfix.FailureCause | PostfixCalculator.java:19-62 | every failed run has a token where it failed, after a failure-free prefix |
| Postfix.DivisionByZeroCause | PostfixCalculator.java:40-50 | every division-by-zero outcome comes from a `/` or `%` whose right operand is 0 |
| Postfix.InvalidTokenCause | PostfixCalculator.java:58-59 | every invalid-token outcome names an invalid token of the input |
| Postfix.MessageShape | PostfixCalculator.java:26-65 | the messages differ in fixed places: the eighth character marks division by zero, the sixteenth an invalid token |
| Postfix.MessageIdentifies | PostfixCalculator.java:26-65 | equal failure messages mean equal failures, so the invalid-token message determines the token |
| Postfix.RunStackSize | PostfixCalculator.java:21-53 | a failure-free run has no invalid token and ends at the starting height plus the number of numbers minus the number of operators |
| Postfix.EvaluateSucceeds | PostfixCalculator.java:64-70 | evaluation succeeds exactly when the run is failure-free and has one more number than operators, and returns the one value left; a failure-free run with any other balance fails with extra operands |
| Postfix.RunNumbers | PostfixCalculator.java:20-21 | numbers alone are stacked in input order |
| Postfix.NumbersOnly | PostfixCalculator.java:64-65 | numbers alone succeed exactly when there is one; empty input and leftover values fail with extra operands |
| Postfix.OperandOrder | PostfixCalculator.java:28-29 | in `a b op` the value pushed later is the right operand |
| Postfix.EvaluateBinary | PostfixCalculator.java:28-54 | `a b op` evaluates to the operator applied to `a` and `b` |
| Postfix.RunPostfix | PostfixCalculator.java:19-62 | the postfix form of a tree pushes the tree's value on any stack, or fails as the tree's direct evaluation fails |
| Postfix.EvaluateToPostfix | PostfixCalculator.java:14-71 | evaluating the postfix tokens of a tree agrees with evaluating the tree |
| Postfix.EvaluateRenderedTree | PostfixCalculator.java:14-71 | evaluating the postfix text of a tree agrees with evaluating the tree |
| Calculator.Record | PostfixCalculator.java:69 | a history line is the expression, then ` = `, then a decimal that reads back as the result |
| Calculator.PostfixCalculator.constructor | PostfixCalculator.java:12 | a new calculator has an empty history |
| Calculator.PostfixCalculator.EvaluatePostfix | PostfixCalculator.java:14-71 | the outcome is the fold's outcome on the scanned tokens; a success appends exactly its one history line at the end, and every failure leaves the history unchanged |
| Calculator.EvaluateTokens | PostfixCalculator.java:15-66 | the stack loop computes exactly the fold's outcome, returning at the first failure |
| Calculator.EvaluateTwice | PostfixCalculator.java:14-71 | the same text evaluated twice gives the same outcome twice, and a success adds two identical history lines |
| Scenarios.Addition | PostfixCalculator.java:31-33 | `3 4 +` is 7 |
| Scenarios.SubtractionOrder | PostfixCalculator.java:28-35 | `6 2 -` is 4 |
| Scenarios.DivisionOrder | PostfixCalculator.java:40-45 | `6 2 /` is 3 |
| Scenarios.ZeroDivisor | PostfixCalculator.java:41-43 | `5 0 /` fails with division by zero |
| Scenarios.ZeroModulus | PostfixCalculator.java:47-49 | `5 0 %` fails with division by zero |
| Scenarios.Exponent | PostfixCalculator.java:52-54 | `2 3 ^` is 8 |
| Scenarios.TruncatedQuotient | PostfixCalculator.java:44 | `-7 2 /` is -3 (truncation toward zero) |
| Scenarios.TruncatedRemainder | PostfixCalculator.java:50 | `-7 2 %` is -1 (sign of the dividend) |
| Scenarios.MissingOperandExample | PostfixCalculator.java:25-27 | `3 +` fails with a missing operand |
| Scenarios.InvalidTokenWords | PostfixCalculator.java:20-24 | `4 abc +` scans as the number 4, the invalid token `abc` and `+` |
| Scenarios.InvalidTokenExample | PostfixCalculator.java:58-59 | `4 abc +` fails with the invalid token `abc` |
| Scenarios.LeftoverOperands | PostfixCalculator.java:64-65 | `2 3` fails with extra operands |
| Scenarios.EmptyText | PostfixCalculator.java:64-65 | the empty text fails with extra operands |
| Scenarios.BlankText | PostfixCalculator.java:19-65 | every text made only of delimiters has no tokens and fails with extra operands |
| Scenarios.LeadingZeros | PostfixCalculator.java:20-21 | the word `007` is the number 7 |
| Scenarios.PlusSign | PostfixCalculator.java:20-21 | the word `+5` is the number 5 |
| Scenarios.NegativeZero | PostfixCalculator.java:20-21 | the word `-0` is the number 0 |
| Scenarios.BoundTexts | PostfixCalculator.java:69 | `2147483647`, `2147483648` and `-2147483648` are the decimal renderings of `MAX`, `MAX + 1` and `MIN` |
| Scenarios.Rendered | PostfixCalculator.java:19-54 | a text `a b op`, with `a` and `b` written in decimal, scans as those three tokens and evaluates to the operator applied to `a` and `b` |
| Scenarios.AdditionWraps | PostfixCalculator.java:32 | `2147483647 1 +` wraps to -2147483648 |
| Scenarios.DivisionWraps | PostfixCalculator.java:44 | `-2147483648 -1 /` wraps to -2147483648 |
| Scenarios.PowerSaturates | PostfixCalculator.java:53 | `2147483647 2 ^` sticks at 2147483647 |
| Scenarios.ProductWraps | PostfixCalculator.java:38 | `2147483647 2147483647 *` wraps to 1 |
| Scenarios.NegativeExponent | PostfixCalculator.java:53 | `2 -1 ^` truncates 0.5 to 0 |
| Scenarios.OutOfRangeLiteral | PostfixCalculator.java:20-24 | the word `2147483648` is an invalid token |
| Scenarios.FirstRecord | PostfixCalculator.java:69 | the history line for `3 4 +` is `3 4 + = 7` |
| Scenarios.HistoryExample | PostfixCalculator.java:12-70 | on a new calculator, `3 4 +` gives 7 and then `3 +` fails with a missing operand, leaving the history `["3 4 + = 7"]` |

## Left out

- `main` (PostfixCalculator.java:98-141) is an interactive console menu and is not modelled.
- `evaluateExpressionsFromFile` (PostfixCalculator.java:73-89) reads a file and prints. It is a loop calling `evaluatePostfix` on each line, so it is not modelled.
- `displayHistory` (PostfixCalculator.java:91-96) only prints `history`, which the model exposes as the field `PostfixCalculator.history`.
- The scanner's locale-specific integer syntax is not modelled. The model reads an integer as an optional `+` or `-` followed by ASCII digits, in the `int` range. `hasNextInt` also accepts group separators (such as `1,000`) and non-ASCII digits; under the model those words are invalid tokens.
- `Tokens.IsWhitespace` lists the characters `Character.isWhitespace` accepts in current Unicode versions. Older JDKs that also count U+180E as a space are not modelled.
- The scanner works lazily, one token per loop iteration. The model tokenises the whole text before the loop. Scanning has no side effects, so the outcome is the same, but the interleaving is not modelled.
- `JavaInt.JavaPow`: `Math.pow` is floating point. The model uses what Java documents for integer arguments: the result is exact when it is representable as a `double`, within one ulp otherwise, and `pow(0, negative)` is positive infinity. It combines that with narrowing toward zero and saturation. With those facts, every `int` result is determined. The floating-point computation itself is not modelled.
- The `default` branch of the operator switch (PostfixCalculator.java:55-56) cannot be reached. The token was already found in the operator set, and `Tokens.Operator` has exactly the six cases, so the match has no seventh case.
- `EvaluatePostfix` and the loop `EvaluateTokens` are two methods, where the code has one method. The loop's branches, pops and pushes follow the code line for line.
- Exceptions are returned as `Result` values, and the exception class (PostfixCalculator.java:4-8) appears only through `Failure.Message`.
