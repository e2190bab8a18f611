/** The calculator object: its evaluation history and the method that
    evaluates one postfix expression and records it on success
    (PostfixCalculator.java, lines 10-71). */
module Calculator {
  import opened JavaInt
  import opened Decimal
  import opened Tokens
  import opened Postfix

  /** The history line for a successful evaluation: the expression, then
      " = ", then the result in decimal, from which the result reads back. */
  function Record(expr: string, result: int32): (line: string)
    ensures |line| > |expr| + 3
    ensures line[..|expr|] == expr
    ensures line[|expr|..|expr| + 3] == " = "
    ensures ParseInt(line[|expr| + 3..]) == Some(result as int)
  {
    var digits := IntToString(result);
    ParseIntToString(result);
    var line := expr + " = " + digits;
    assert line[..|expr|] == expr;
    assert line[|expr|..|expr| + 3] == " = ";
    assert line[|expr| + 3..] == digits;
    line
  }

  class PostfixCalculator {
    /** One line per successful evaluation, oldest first. */
    var history: seq<string>

    constructor ()
      ensures history == []
    {
      history := [];
    }

    /** Evaluates `expr` with a fresh operand stack.  The outcome is the one
        the token fold defines; a success appends exactly one line to the
        history, and every failure leaves the history as it was. */
    method EvaluatePostfix(expr: string) returns (r: Result<int32>)
      modifies this
      ensures r == Evaluate(Tokenize(expr))
      ensures history == if r.Ok? then old(history) + [Record(expr, r.value)] else old(history)
    {
      r := EvaluateTokens(Tokenize(expr));
      if r.Ok? {
        history := history + [Record(expr, r.value)];
      }
    }
  }

  /** The scanning loop of the evaluation: numbers are pushed, each operator
      pops its right operand and then its left one and pushes the result,
      and the first failure ends the loop.  At the end exactly one value
      must remain.  Its outcome is the one the token fold defines. */
  method EvaluateTokens(tokens: seq<Token>) returns (r: Result<int32>)
    ensures r == Evaluate(tokens)
  {
    var stack: seq<int32> := [];
    var i := 0;
    while i < |tokens|
      invariant 0 <= i <= |tokens|
      invariant Run(stack, tokens[i..]) == Run([], tokens)
    {
      RunAt(stack, tokens, i);
      ghost var before := stack;
      match tokens[i] {
        case Number(n) =>
          stack := stack + [n];
        case Op(op) =>
          if |stack| < 2 {
            return Err(MissingOperand);
          }
          var operand2 := stack[|stack| - 1];
          stack := stack[..|stack| - 1];
          var operand1 := stack[|stack| - 1];
          stack := stack[..|stack| - 1];
          assert stack == before[..|before| - 2];
          assert operand1 == before[|before| - 2] && operand2 == before[|before| - 1];
          var value: int32;
          match op {
            case Add =>
              value := Wrap(operand1 as int + operand2 as int);
            case Sub =>
              value := Wrap(operand1 as int - operand2 as int);
            case Mul =>
              value := Wrap(operand1 as int * operand2 as int);
            case Div =>
              if operand2 == 0 {
                return Err(DivisionByZero);
              }
              value := JavaDiv(operand1, operand2);
            case Rem =>
              if operand2 == 0 {
                return Err(DivisionByZero);
              }
              value := JavaRem(operand1, operand2);
            case Pow =>
              value := JavaPow(operand1, operand2);
          }
          assert Apply(op, operand1, operand2) == Ok(value);
          stack := stack + [value];
        case Invalid(w) =>
          return Err(InvalidToken(w));
      }
      assert Step(before, tokens[i]) == Ok(stack);
      i := i + 1;
    }
    assert Run([], tokens) == Ok(stack) by {
      assert tokens[i..] == [];
    }
    if |stack| != 1 {
      return Err(ExtraOperands);
    }
    return Ok(stack[0]);
  }

  /** No state leaks from one evaluation into the next: the same text gives the
      same outcome twice, and a success is recorded twice. */
  method EvaluateTwice(calculator: PostfixCalculator, expr: string) returns (first: Result<int32>, second: Result<int32>)
    modifies calculator
    ensures first == second
    ensures calculator.history == old(calculator.history) +
      if first.Ok? then [Record(expr, first.value), Record(expr, first.value)] else []
  {
    first := calculator.EvaluatePostfix(expr);
    second := calculator.EvaluatePostfix(expr);
  }
}
