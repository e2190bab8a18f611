/** The meaning of a postfix expression: a left fold of the tokens over an
    operand stack, stopping at the first failure
    (PostfixCalculator.java, lines 14-71). */
module Postfix {
  import opened JavaInt
  import opened Tokens

  /** The four ways an evaluation fails. */
  datatype Failure = MissingOperand | DivisionByZero | InvalidToken(token: string) | ExtraOperands
  {
    /** The message of the exception raised for this failure. */
    function Message(): (m: string)
      ensures |m| > 22 && m[..7] == "Error: "
      ensures InvalidToken? ==> m[22..|m| - 1] == token && m[|m| - 1] == '\''
    {
      var detail :=
        match this
        case MissingOperand => "Invalid postfix expression (missing operand)"
        case DivisionByZero => "Division by zero"
        case InvalidToken(t) => "Invalid token '" + t + "'"
        case ExtraOperands => "Invalid postfix expression (extra operands)";
      assert ("Error: " + detail)[7..] == detail;
      "Error: " + detail
    }
  }

  datatype Result<T> = Ok(value: T) | Err(failure: Failure)

  /** One operator applied to its left and right operand, with Java `int` semantics. */
  function Apply(op: Operator, lhs: int32, rhs: int32): (r: Result<int32>)
    ensures r.Err? <==> (op == Div || op == Rem) && rhs == 0
    ensures r.Err? ==> r.failure == DivisionByZero
  {
    match op
    case Add => Ok(Wrap(lhs as int + rhs as int))
    case Sub => Ok(Wrap(lhs as int - rhs as int))
    case Mul => Ok(Wrap(lhs as int * rhs as int))
    case Div => if rhs == 0 then Err(DivisionByZero) else Ok(JavaDiv(lhs, rhs))
    case Rem => if rhs == 0 then Err(DivisionByZero) else Ok(JavaRem(lhs, rhs))
    case Pow => Ok(JavaPow(lhs, rhs))
  }

  /** One token's effect on the operand stack; the top of the stack is the last element.
      An operator pops the right operand first, then the left one. */
  function Step(stack: seq<int32>, t: Token): (r: Result<seq<int32>>)
    ensures r == Err(MissingOperand) <==> t.Op? && |stack| < 2
    ensures r == Err(DivisionByZero) <==>
      (t == Op(Div) || t == Op(Rem)) && |stack| >= 2 && stack[|stack| - 1] == 0
    ensures r.Err? && r.failure.InvalidToken? <==> t.Invalid?
    ensures t.Invalid? ==> r == Err(InvalidToken(t.text))
    ensures r != Err(ExtraOperands)
    ensures r.Ok? && t.Number? ==> r.value == stack + [t.value]
    ensures r.Ok? && t.Op? ==>
      |stack| >= 2 && |r.value| == |stack| - 1 && r.value[..|stack| - 2] == stack[..|stack| - 2]
  {
    match t
    case Number(n) => Ok(stack + [n])
    case Op(op) =>
      if |stack| < 2 then Err(MissingOperand)
      else
        var rhs, lhs := stack[|stack| - 1], stack[|stack| - 2];
        (match Apply(op, lhs, rhs)
         case Ok(v) => Ok(stack[..|stack| - 2] + [v])
         case Err(f) => Err(f))
    case Invalid(w) => Err(InvalidToken(w))
  }

  /** The tokens processed left to right from `stack`, stopping at the first failure. */
  function Run(stack: seq<int32>, ts: seq<Token>): (r: Result<seq<int32>>)
    ensures r.Err? ==> r.failure != ExtraOperands
    decreases |ts|
  {
    if ts == [] then Ok(stack)
    else
      match Step(stack, ts[0])
      case Ok(next) => Run(next, ts[1..])
      case Err(f) => Err(f)
  }

  /** One step of `Run`, at position `i` of the tokens. */
  lemma RunAt(stack: seq<int32>, ts: seq<Token>, i: nat)
    requires i < |ts|
    ensures Run(stack, ts[i..]) ==
      if Step(stack, ts[i]).Ok? then Run(Step(stack, ts[i]).value, ts[i + 1..]) else Step(stack, ts[i])
  {
  }

  /** The outcome of a whole expression: a fresh stack, then exactly one value left. */
  function Evaluate(ts: seq<Token>): (r: Result<int32>)
    ensures r.Ok? <==> Run([], ts).Ok? && |Run([], ts).value| == 1
    ensures r.Ok? ==> Run([], ts) == Ok([r.value])
    ensures r == Err(ExtraOperands) <==> Run([], ts).Ok? && |Run([], ts).value| != 1
    ensures r.Err? && r.failure != ExtraOperands ==> Run([], ts) == Err(r.failure)
  {
    match Run([], ts)
    case Err(f) => Err(f)
    case Ok(stack) => if |stack| == 1 then assert stack == [stack[0]]; Ok(stack[0]) else Err(ExtraOperands)
  }

  function NumberCount(ts: seq<Token>): nat
  {
    if ts == [] then 0 else (if ts[0].Number? then 1 else 0) + NumberCount(ts[1..])
  }

  function OperatorCount(ts: seq<Token>): nat
  {
    if ts == [] then 0 else (if ts[0].Op? then 1 else 0) + OperatorCount(ts[1..])
  }

  // ---------------------------------------------------------------------
  // Failures

  /** Where the messages differ: the eighth character singles out division
      by zero, the sixteenth the invalid token. */
  lemma MessageShape(f: Failure)
    ensures |f.Message()| > 22
    ensures f.Message()[7] == 'D' <==> f.DivisionByZero?
    ensures f.Message()[15] == 't' <==> f.InvalidToken?
  {
    var d := f.Message()[7..];
    assert f.Message()[7] == d[0] && f.Message()[15] == d[8];
    match f
    case MissingOperand =>
      assert d == "Invalid postfix expression (missing operand)";
    case DivisionByZero =>
      assert d == "Division by zero";
    case InvalidToken(t) =>
      assert d == "Invalid token '" + t + "'";
    case ExtraOperands =>
      assert d == "Invalid postfix expression (extra operands)";
  }

  /** The failure messages tell the failures apart, and the invalid-token
      message carries exactly the offending token. */
  lemma MessageIdentifies(f: Failure, g: Failure)
    ensures f.Message() == g.Message() ==> f == g
  {
    MessageShape(f);
    MessageShape(g);
  }

  /** Running a concatenation is running the first part, then the second from where it left off. */
  lemma {:induction false} RunAppend(stack: seq<int32>, a: seq<Token>, b: seq<Token>)
    ensures Run(stack, a + b) ==
      if Run(stack, a).Ok? then Run(Run(stack, a).value, b) else Run(stack, a)
    decreases |a|
  {
    if a == [] {
      assert a + b == b;
    } else {
      assert a + b != [];
      assert (a + b)[0] == a[0] && (a + b)[1..] == a[1..] + b;
      match Step(stack, a[0])
      case Ok(next) =>
        RunAppend(next, a[1..], b);
        assert Run(stack, a + b) == Run(next, a[1..] + b);
        assert Run(stack, a) == Run(next, a[1..]);
      case Err(f) =>
        assert Run(stack, a + b) == Err(f) == Run(stack, a);
    }
  }

  /** The first failing token decides the outcome of the whole expression. */
  lemma FirstFailureDecides(ts: seq<Token>, i: nat, before: seq<int32>)
    requires i < |ts|
    requires Run([], ts[..i]) == Ok(before)
    requires Step(before, ts[i]).Err?
    ensures Evaluate(ts) == Err(Step(before, ts[i]).failure)
  {
    assert ts == ts[..i] + ts[i..];
    RunAppend([], ts[..i], ts[i..]);
    assert ts[i..][0] == ts[i];
  }

  /** An operator reached with fewer than two values on the stack is a missing operand. */
  lemma MissingOperandWhenShort(ts: seq<Token>, i: nat, before: seq<int32>)
    requires i < |ts| && ts[i].Op?
    requires Run([], ts[..i]) == Ok(before) && |before| < 2
    ensures Evaluate(ts) == Err(MissingOperand)
  {
    FirstFailureDecides(ts, i, before);
  }

  /** An invalid token reached before any other failure is reported with its own text. */
  lemma InvalidTokenReported(ts: seq<Token>, i: nat, before: seq<int32>)
    requires i < |ts| && ts[i].Invalid?
    requires Run([], ts[..i]) == Ok(before)
    ensures Evaluate(ts) == Err(InvalidToken(ts[i].text))
  {
    FirstFailureDecides(ts, i, before);
  }

  /** A failed run failed at a particular token, after a failure-free prefix. */
  lemma {:induction false} FailureCause(stack: seq<int32>, ts: seq<Token>) returns (i: nat, before: seq<int32>)
    requires Run(stack, ts).Err?
    ensures i < |ts|
    ensures Run(stack, ts[..i]) == Ok(before)
    ensures Step(before, ts[i]) == Err(Run(stack, ts).failure)
    decreases |ts|
  {
    match Step(stack, ts[0])
    case Err(f) =>
      i, before := 0, stack;
    case Ok(next) =>
      var j, b := FailureCause(next, ts[1..]);
      i, before := j + 1, b;
      assert ts[..i][1..] == ts[1..][..j];
  }

  /** Every division-by-zero outcome comes from a `/` or `%` whose right operand is 0. */
  lemma DivisionByZeroCause(ts: seq<Token>) returns (i: nat, before: seq<int32>)
    requires Evaluate(ts) == Err(DivisionByZero)
    ensures i < |ts| && (ts[i] == Op(Div) || ts[i] == Op(Rem))
    ensures Run([], ts[..i]) == Ok(before)
    ensures |before| >= 2 && before[|before| - 1] == 0
  {
    i, before := FailureCause([], ts);
  }

  /** Every invalid-token outcome names a token of the input that is invalid. */
  lemma InvalidTokenCause(ts: seq<Token>, w: string) returns (i: nat)
    requires Evaluate(ts) == Err(InvalidToken(w))
    ensures i < |ts| && ts[i] == Invalid(w)
  {
    var before;
    i, before := FailureCause([], ts);
  }

  // ---------------------------------------------------------------------
  // The operand stack

  /** A failure-free run contains no invalid token and ends with the starting
      height plus the count of numbers minus the count of operators. */
  lemma {:induction false} RunStackSize(stack: seq<int32>, ts: seq<Token>)
    requires Run(stack, ts).Ok?
    ensures |Run(stack, ts).value| == |stack| + NumberCount(ts) - OperatorCount(ts)
    ensures forall j :: 0 <= j < |ts| ==> !ts[j].Invalid?
    decreases |ts|
  {
    if ts != [] {
      var next := Step(stack, ts[0]).value;
      RunStackSize(next, ts[1..]);
      assert forall j :: 1 <= j < |ts| ==> ts[j] == ts[1..][j - 1];
    }
  }

  /** Success happens exactly when the run is failure-free and leaves one value,
      that is, when there is one more number than there are operators; a
      failure-free run with any other balance has extra (or no) operands. */
  lemma EvaluateSucceeds(ts: seq<Token>)
    ensures Evaluate(ts).Ok? <==> Run([], ts).Ok? && NumberCount(ts) == OperatorCount(ts) + 1
    ensures Evaluate(ts).Ok? ==> Evaluate(ts).value == Run([], ts).value[0]
    ensures Evaluate(ts) == Err(ExtraOperands) <==>
      Run([], ts).Ok? && NumberCount(ts) != OperatorCount(ts) + 1
  {
    if Run([], ts).Ok? {
      RunStackSize([], ts);
    } else {
      var i, before := FailureCause([], ts);
    }
  }

  /** Pushing numbers only stacks them in order. */
  lemma {:induction false} RunNumbers(stack: seq<int32>, ts: seq<Token>)
    requires forall j :: 0 <= j < |ts| ==> ts[j].Number?
    ensures Run(stack, ts) == Ok(stack + seq(|ts|, j requires 0 <= j < |ts| => ts[j].value))
    decreases |ts|
  {
    var values := seq(|ts|, j requires 0 <= j < |ts| => ts[j].value);
    if ts == [] {
      assert stack + values == stack;
    } else {
      RunNumbers(stack + [ts[0].value], ts[1..]);
      assert stack + [ts[0].value] + seq(|ts[1..]|, j requires 0 <= j < |ts[1..]| => ts[1..][j].value)
        == stack + values;
    }
  }

  /** An input of numbers only succeeds exactly when it is one number; in
      particular the empty input and `2 3` have extra (or no) operands. */
  lemma NumbersOnly(ts: seq<Token>)
    requires forall j :: 0 <= j < |ts| ==> ts[j].Number?
    ensures Evaluate(ts) == if |ts| == 1 then Ok(ts[0].value) else Err(ExtraOperands)
  {
    RunNumbers([], ts);
  }

  /** The value pushed later is the right-hand operand. */
  lemma OperandOrder(stack: seq<int32>, a: int32, b: int32, op: Operator)
    ensures Run(stack, [Number(a), Number(b), Op(op)]) ==
      if Apply(op, a, b).Ok? then Ok(stack + [Apply(op, a, b).value]) else Err(Apply(op, a, b).failure)
  {
    var ts := [Number(a), Number(b), Op(op)];
    var s := stack + [a] + [b];
    assert s[..|s| - 2] == stack && s[|s| - 2] == a && s[|s| - 1] == b;
    assert ts[1..][0] == Number(b) && ts[1..][1..] == [Op(op)] && [Op(op)][1..] == [];
    assert Run(stack, ts) == Run(stack + [a], ts[1..]);
    assert Run(stack + [a], ts[1..]) == Run(s, [Op(op)]);
  }

  /** A single binary operation `a b op` evaluates to `a op b`. */
  lemma EvaluateBinary(a: int32, b: int32, op: Operator)
    ensures Evaluate([Number(a), Number(b), Op(op)]) == Apply(op, a, b)
  {
    OperandOrder([], a, b, op);
  }

  // ---------------------------------------------------------------------
  // Reference semantics: expression trees

  /** An arithmetic expression as a tree; its postfix form lists the operands before the operator. */
  datatype Expr = Lit(n: int32) | Bin(op: Operator, left: Expr, right: Expr)

  /** Direct evaluation of a tree: the left operand first, then the right one, then the operator. */
  function Eval(e: Expr): Result<int32>
  {
    match e
    case Lit(n) => Ok(n)
    case Bin(op, l, r) =>
      match Eval(l)
      case Err(f) => Err(f)
      case Ok(x) =>
        match Eval(r)
        case Err(f) => Err(f)
        case Ok(y) => Apply(op, x, y)
  }

  function ToPostfix(e: Expr): seq<Token>
  {
    match e
    case Lit(n) => [Number(n)]
    case Bin(op, l, r) => ToPostfix(l) + ToPostfix(r) + [Op(op)]
  }

  /** The postfix form of a tree pushes the tree's value, or fails as the tree does. */
  lemma {:induction false} RunPostfix(stack: seq<int32>, e: Expr)
    ensures Run(stack, ToPostfix(e)) ==
      if Eval(e).Ok? then Ok(stack + [Eval(e).value]) else Err(Eval(e).failure)
    decreases e
  {
    match e
    case Lit(n) =>
    case Bin(op, l, r) =>
      var L, R := ToPostfix(l), ToPostfix(r);
      assert ToPostfix(e) == L + (R + [Op(op)]);
      RunAppend(stack, L, R + [Op(op)]);
      RunPostfix(stack, l);
      if Eval(l).Ok? {
        var x := Eval(l).value;
        RunAppend(stack + [x], R, [Op(op)]);
        RunPostfix(stack + [x], r);
        if Eval(r).Ok? {
          var s := stack + [x] + [Eval(r).value];
          assert s[..|s| - 2] == stack;
        }
      }
  }

  /** Evaluating the postfix form of a tree agrees with evaluating the tree. */
  lemma EvaluateToPostfix(e: Expr)
    ensures Evaluate(ToPostfix(e)) == Eval(e)
  {
    RunPostfix([], e);
  }

  /** The postfix form of a tree holds numbers and operators only. */
  lemma {:induction false} ToPostfixIsValid(e: Expr)
    ensures forall j :: 0 <= j < |ToPostfix(e)| ==> !ToPostfix(e)[j].Invalid?
  {
    match e
    case Lit(n) =>
    case Bin(op, l, r) =>
      ToPostfixIsValid(l);
      ToPostfixIsValid(r);
      var L, R := ToPostfix(l), ToPostfix(r);
      assert forall j :: 0 <= j < |L| ==> ToPostfix(e)[j] == L[j];
      assert forall j :: |L| <= j < |L| + |R| ==> ToPostfix(e)[j] == R[j - |L|];
  }

  /** Typing the postfix form of a tree as text and evaluating that text agrees
      with evaluating the tree. */
  lemma EvaluateRenderedTree(e: Expr)
    ensures Evaluate(Tokenize(Render(ToPostfix(e)))) == Eval(e)
  {
    ToPostfixIsValid(e);
    TokenizeRender(ToPostfix(e));
    EvaluateToPostfix(e);
  }
}
