/** Worked examples of the evaluator on expression texts, and of the
    calculator's history across calls. */
module Scenarios {
  import opened JavaInt
  import opened Decimal
  import opened Tokens
  import opened Postfix
  import opened Calculator

  /** The tokens of a text made of words separated by single spaces. */
  lemma TokensOf(s: string, ws: seq<string>)
    requires forall j :: 0 <= j < |ws| ==> IsWord(ws[j])
    requires s == Join(ws)
    ensures Tokenize(s) == ClassifyAll(ws)
  {
    WordsOfJoin(ws);
  }

  lemma Join2(a: string, b: string)
    ensures Join([a, b]) == a + " " + b
  {
  }

  lemma Join3(a: string, b: string, c: string)
    ensures Join([a, b, c]) == a + " " + b + " " + c
  {
    assert [a, b, c][1..] == [b, c];
    Join2(b, c);
    assert Join([a, b, c]) == a + " " + (b + " " + c);
  }

  lemma ClassifyAll3(a: string, b: string, c: string)
    ensures ClassifyAll([a, b, c]) == [Classify(a), Classify(b), Classify(c)]
  {
  }

  /** A one-digit word, with or without a minus sign, is that number. */
  lemma Digit(d: nat)
    requires d < 10
    ensures Classify([DigitChar(d)]) == Number(d)
    ensures Classify(['-', DigitChar(d)]) == Number(-(d as int))
  {
    assert [DigitChar(d)][..0] == [];
    assert ['-', DigitChar(d)][1..] == [DigitChar(d)];
    assert DigitsValue([DigitChar(d)]) == d;
  }

  /** The tokens of `a b op` for one-digit numbers `a` (possibly negative) and `b`. */
  lemma Binary(a: int, b: nat, op: Operator, s: string)
    requires -10 < a < 10 && b < 10
    requires s == (if a < 0 then ['-', DigitChar(-a)] else [DigitChar(a)]) + " " + [DigitChar(b)] + " " + Symbol(op)
    ensures Tokenize(s) == [Number(a), Number(b), Op(op)]
  {
    var first := if a < 0 then ['-', DigitChar(-a)] else [DigitChar(a)];
    Digit(if a < 0 then -a else a);
    Digit(b);
    ClassifySymbol(op);
    Join3(first, [DigitChar(b)], Symbol(op));
    TokensOf(s, [first, [DigitChar(b)], Symbol(op)]);
    ClassifyAll3(first, [DigitChar(b)], Symbol(op));
  }

  /** `3 4 +` is 7. */
  lemma Addition()
    ensures Evaluate(Tokenize("3 4 +")) == Ok(7)
  {
    Binary(3, 4, Add, "3 4 +");
    EvaluateBinary(3, 4, Add);
  }

  /** The later operand is the right one: `6 2 -` is 4, not -4. */
  lemma SubtractionOrder()
    ensures Evaluate(Tokenize("6 2 -")) == Ok(4)
  {
    Binary(6, 2, Sub, "6 2 -");
    EvaluateBinary(6, 2, Sub);
  }

  /** The later operand is the divisor: `6 2 /` is 3. */
  lemma DivisionOrder()
    ensures Evaluate(Tokenize("6 2 /")) == Ok(3)
  {
    Binary(6, 2, Div, "6 2 /");
    EvaluateBinary(6, 2, Div);
    assert TruncDiv(6, 2) == 3;
  }

  /** `5 0 /` divides by zero. */
  lemma ZeroDivisor()
    ensures Evaluate(Tokenize("5 0 /")) == Err(DivisionByZero)
  {
    Binary(5, 0, Div, "5 0 /");
    EvaluateBinary(5, 0, Div);
  }

  /** `5 0 %` divides by zero too. */
  lemma ZeroModulus()
    ensures Evaluate(Tokenize("5 0 %")) == Err(DivisionByZero)
  {
    Binary(5, 0, Rem, "5 0 %");
    EvaluateBinary(5, 0, Rem);
  }

  /** `2 3 ^` is 8. */
  lemma Exponent()
    ensures Evaluate(Tokenize("2 3 ^")) == Ok(8)
  {
    Binary(2, 3, Pow, "2 3 ^");
    EvaluateBinary(2, 3, Pow);
  }

  /** Division truncates toward zero: `-7 2 /` is -3. */
  lemma TruncatedQuotient()
    ensures Evaluate(Tokenize("-7 2 /")) == Ok(-3)
  {
    Binary(-7, 2, Div, "-7 2 /");
    EvaluateBinary(-7, 2, Div);
    assert TruncDiv(-7, 2) == -3;
  }

  /** The remainder takes the sign of the dividend: `-7 2 %` is -1. */
  lemma TruncatedRemainder()
    ensures Evaluate(Tokenize("-7 2 %")) == Ok(-1)
  {
    assert Apply(Rem, -7, 2) == Ok(-1) by {
      assert TruncRem(-7, 2) == -1;
    }
    Binary(-7, 2, Rem, "-7 2 %");
    EvaluateBinary(-7, 2, Rem);
  }

  /** `3 +` is missing an operand. */
  lemma MissingOperandExample()
    ensures Evaluate(Tokenize("3 +")) == Err(MissingOperand)
  {
  }

  lemma InvalidTokenWords()
    ensures Tokenize("4 abc +") == [Number(4), Invalid("abc"), Op(Add)]
  {
    Digit(4);
    ClassifySymbol(Add);
    assert !IsDigit("abc"[0]);
    assert Classify("abc") == Invalid("abc");
    Join3("4", "abc", "+");
    TokensOf("4 abc +", ["4", "abc", "+"]);
    ClassifyAll3("4", "abc", "+");
  }

  /** `4 abc +` reports the token `abc`. */
  lemma InvalidTokenExample()
    ensures Evaluate(Tokenize("4 abc +")) == Err(InvalidToken("abc"))
  {
    InvalidTokenWords();
    var ts := [Number(4), Invalid("abc"), Op(Add)];
    assert ts[..1] == [Number(4)];
    assert Run([], [Number(4)]) == Ok([4]) by {
      assert [Number(4)][1..] == [];
      var empty: seq<int32> := [];
      assert Step(empty, Number(4)) == Ok(empty + [4]) && empty + [4] == [4];
    }
    InvalidTokenReported(ts, 1, [4]);
  }

  /** `2 3` leaves two operands. */
  lemma LeftoverOperands()
    ensures Evaluate(Tokenize("2 3")) == Err(ExtraOperands)
  {
  }

  /** The empty text leaves no operand. */
  lemma EmptyText()
    ensures Evaluate(Tokenize("")) == Err(ExtraOperands)
  {
  }

  /** A text of delimiters alone has no tokens either. */
  lemma BlankText(s: string)
    requires IsBlank(s)
    ensures Evaluate(Tokenize(s)) == Err(ExtraOperands)
  {
    WordsOfBlankThen(s, "");
    assert s + "" == s;
    NumbersOnly([]);
  }

  /** Leading zeros are accepted: `007` is 7. */
  lemma LeadingZeros()
    ensures Classify("007") == Number(7)
  {
    assert NatToString(7) == "7";
    ParseIntPadded("", "00", 7);
    assert "" + ("00" + "7") == "007";
  }

  /** A plus sign is accepted: `+5` is 5. */
  lemma PlusSign()
    ensures Classify("+5") == Number(5)
  {
    assert NatToString(5) == "5";
    ParseIntPadded("+", "", 5);
    assert "+" + ("" + "5") == "+5";
  }

  /** A negative zero is zero: `-0` is 0. */
  lemma NegativeZero()
    ensures Classify("-0") == Number(0)
  {
    ParseIntPadded("-", "", 0);
    assert "-" + ("" + "0") == "-0";
  }

  lemma LeadingDigits()
    ensures NatToString(2147483) == "2147483"
  {
    assert NatToString(2) == "2";
    assert NatToString(21) == "21";
    assert NatToString(214) == "214";
    assert NatToString(2147) == "2147";
    assert NatToString(21474) == "21474";
    assert NatToString(214748) == "214748";
  }

  /** The decimal texts of the `int` bounds and of the first value above them. */
  lemma BoundTexts()
    ensures IntToString(MAX) == "2147483647"
    ensures IntToString(MAX + 1) == "2147483648"
    ensures IntToString(MIN) == "-2147483648"
  {
    LeadingDigits();
    assert NatToString(21474836) == "21474836";
    assert NatToString(214748364) == "214748364";
    assert NatToString(2147483647) == "2147483647";
    assert NatToString(2147483648) == "2147483648";
  }

  /** The text `a b op`, written with Java's rendering of `a` and `b`,
      evaluates to `op` applied to `a` and `b`. */
  lemma Rendered(a: int32, b: int32, op: Operator, s: string)
    requires s == IntToString(a) + " " + IntToString(b) + " " + Symbol(op)
    ensures Tokenize(s) == [Number(a), Number(b), Op(op)]
    ensures Evaluate(Tokenize(s)) == Apply(op, a, b)
  {
    var ws := [IntToString(a), IntToString(b), Symbol(op)];
    ClassifyIntToString(a);
    ClassifyIntToString(b);
    ClassifySymbol(op);
    Join3(ws[0], ws[1], ws[2]);
    TokensOf(s, ws);
    ClassifyAll3(ws[0], ws[1], ws[2]);
    EvaluateBinary(a, b, op);
  }

  lemma MaxSuccessorWraps()
    ensures Apply(Add, MAX, 1) == Ok(MIN)
  {
    assert MAX + 1 - MIN == MODULUS;
  }

  /** Sums wrap around at 32 bits: `2147483647 1 +` is -2147483648. */
  lemma AdditionWraps()
    ensures Evaluate(Tokenize("2147483647 1 +")) == Ok(MIN)
  {
    BoundTexts();
    assert IntToString(MAX) + " " + IntToString(1) + " " + Symbol(Add) == "2147483647 1 +";
    Rendered(MAX, 1, Add, "2147483647 1 +");
    MaxSuccessorWraps();
  }

  /** The one overflowing division: `-2147483648 -1 /` is -2147483648. */
  lemma DivisionWraps()
    ensures Evaluate(Tokenize("-2147483648 -1 /")) == Ok(MIN)
  {
    BoundTexts();
    assert IntToString(-1) == "-1";
    assert IntToString(MIN) + " " + IntToString(-1) + " " + Symbol(Div) == "-2147483648 -1 /";
    Rendered(MIN, -1, Div, "-2147483648 -1 /");
  }

  /** Powers stick at the bound instead of wrapping: `2147483647 2 ^` is 2147483647. */
  lemma PowerSaturates()
    ensures Evaluate(Tokenize("2147483647 2 ^")) == Ok(MAX)
  {
    BoundTexts();
    assert IntToString(MAX) + " " + IntToString(2) + " " + Symbol(Pow) == "2147483647 2 ^";
    Rendered(MAX, 2, Pow, "2147483647 2 ^");
    assert Power(MAX, 2) == MAX * MAX;
  }

  lemma MaxSquareWraps()
    ensures Apply(Mul, MAX, MAX) == Ok(1)
  {
    assert MAX * MAX == 1 + (MAX - 1) / 2 * MODULUS;
  }

  /** Products wrap instead: `2147483647 2147483647 *` is 1. */
  lemma ProductWraps()
    ensures Evaluate(Tokenize("2147483647 2147483647 *")) == Ok(1)
  {
    BoundTexts();
    assert IntToString(MAX) + " " + IntToString(MAX) + " " + Symbol(Mul) == "2147483647 2147483647 *";
    Rendered(MAX, MAX, Mul, "2147483647 2147483647 *");
    MaxSquareWraps();
  }

  /** A negative exponent truncates the fraction: `2 -1 ^` is 0. */
  lemma NegativeExponent()
    ensures Evaluate(Tokenize("2 -1 ^")) == Ok(0)
  {
    assert IntToString(2) == "2" && IntToString(-1) == "-1";
    assert IntToString(2) + " " + IntToString(-1) + " " + Symbol(Pow) == "2 -1 ^";
    Rendered(2, -1, Pow, "2 -1 ^");
  }

  /** A literal beyond the `int` range, `2147483648`, is not a number to the scanner. */
  lemma OutOfRangeLiteral()
    ensures Classify("2147483648") == Invalid("2147483648")
  {
    BoundTexts();
    OutOfRangeIsInvalid(MAX + 1);
  }

  lemma FirstRecord()
    ensures Record("3 4 +", 7) == "3 4 + = 7"
  {
    assert IntToString(7) == "7";
  }

  /** A success is recorded as `3 4 + = 7`; a later failure leaves the history as it was. */
  method HistoryExample() returns (first: Result<int32>, second: Result<int32>, history: seq<string>)
    ensures first == Ok(7)
    ensures second == Err(MissingOperand)
    ensures history == ["3 4 + = 7"]
  {
    var calculator := new PostfixCalculator();
    Addition();
    first := calculator.EvaluatePostfix("3 4 +");
    assert calculator.history == [Record("3 4 +", 7)];
    MissingOperandExample();
    second := calculator.EvaluatePostfix("3 +");
    FirstRecord();
    history := calculator.history;
  }
}
