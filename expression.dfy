/** The postfix evaluator of `evaluate_expression` (config_parser.py:82-120),
    as functions: how one token is classified, what one token does to the
    stack, and the whole run.  The loop itself is the method
    `ConfigParser.EvaluateExpression`, which is proved equal to `Evaluate`. */
module Expression {
  import opened Results
  import opened Text
  import opened Values

  datatype Op = Add | Sub | Mul | Div | Mod | Max

  datatype TokenKind = Operand(v: Value) | Operator(op: Op) | Unrecognised

  /** The order of the tests in the loop: a digit string, then a declared name,
      then one of the six operators. */
  function Classify(token: string, env: Env): TokenKind {
    if IsDigits(token) then Operand(Int(DigitsValue(token)))
    else if token in env then Operand(env[token])
    else match OperatorOf(token)
      case Some(op) => Operator(op)
      case None => Unrecognised
  }

  /** The operator each operator token names when it is not a declared name. */
  function OperatorOf(token: string): Option<Op> {
    if token == "+" then Some(Add)
    else if token == "-" then Some(Sub)
    else if token == "*" then Some(Mul)
    else if token == "/" then Some(Div)
    else if token == "mod" then Some(Mod)
    else if token == "max" then Some(Max)
    else None
  }

  /** Python's `a // b`. */
  function FloorDiv(a: int, b: int): int
    requires b != 0
  {
    if b > 0 then a / b else (-a) / (-b)
  }

  /** Python's `a % b`. */
  function FloorMod(a: int, b: int): int
    requires b != 0
  {
    a - FloorDiv(a, b) * b
  }

  /** `FloorDiv` rounds the quotient towards negative infinity. */
  lemma FloorDivSpec(a: int, b: int)
    requires b != 0
    ensures b > 0 ==> FloorDiv(a, b) * b <= a < FloorDiv(a, b) * b + b
    ensures b < 0 ==> FloorDiv(a, b) * b + b < a <= FloorDiv(a, b) * b
  {
    if b < 0 {
      var q := (-a) / (-b);
      assert (-a) == q * (-b) + (-a) % (-b);
      assert 0 <= (-a) % (-b) < -b;
    }
  }

  /** `FloorMod` is the remainder of `FloorDiv` and has the sign of the divisor. */
  lemma FloorModSpec(a: int, b: int)
    requires b != 0
    ensures a == FloorDiv(a, b) * b + FloorMod(a, b)
    ensures b > 0 ==> 0 <= FloorMod(a, b) < b
    ensures b < 0 ==> b < FloorMod(a, b) <= 0
  {
    FloorDivSpec(a, b);
  }

  /** Python's `n * items` for a list: `n` copies end to end, none when `n <= 0`. */
  function Repeat(items: seq<Value>, n: int): (r: seq<Value>)
    ensures |r| == (if n <= 0 then 0 else n * |items|)
    decreases if n <= 0 then 0 else n
  {
    if n <= 0 then [] else items + Repeat(items, n - 1)
  }

  /** Each copy in `Repeat` is the original list. */
  lemma {:induction false} RepeatElements(items: seq<Value>, n: int, k: int, i: int)
    requires 0 <= k < n && 0 <= i < |items|
    ensures k * |items| + i < |Repeat(items, n)|
    ensures Repeat(items, n)[k * |items| + i] == items[i]
    decreases n
  {
    if k > 0 {
      RepeatElements(items, n - 1, k - 1, i);
      assert k * |items| + i == |items| + ((k - 1) * |items| + i);
    }
  }

  /** Python's `x > y` on these values: integers by value; lists lexicographically,
      the first unequal pair deciding and a proper prefix being smaller; an integer
      against a list is a type error. */
  function Greater(x: Value, y: Value): (r: Result<bool>)
    ensures r.Err? ==> r.error == TypeMismatch
  {
    if x.Int? && y.Int? then Ok(x.n > y.n)
    else if x.List? && y.List? then GreaterItems(x.items, y.items)
    else Err(TypeMismatch)
  }

  function GreaterItems(xs: seq<Value>, ys: seq<Value>): (r: Result<bool>)
    ensures r.Err? ==> r.error == TypeMismatch
  {
    if xs == [] || ys == [] then Ok(|xs| > |ys|)
    else if xs[0] != ys[0] then Greater(xs[0], ys[0])
    else GreaterItems(xs[1..], ys[1..])
  }

  /** Nothing is greater than itself. */
  lemma {:induction false} GreaterIrreflexive(x: Value)
    ensures Greater(x, x) == Ok(false)
  {
    if x.List? {
      GreaterItemsIrreflexive(x.items);
    }
  }

  lemma {:induction false} GreaterItemsIrreflexive(xs: seq<Value>)
    ensures GreaterItems(xs, xs) == Ok(false)
  {
    if xs != [] {
      GreaterItemsIrreflexive(xs[1..]);
    }
  }

  /** A list is greater than each of its proper prefixes, and not the other way round. */
  lemma {:induction false} GreaterThanPrefix(xs: seq<Value>, ys: seq<Value>)
    requires ys != []
    ensures GreaterItems(xs + ys, xs) == Ok(true)
    ensures GreaterItems(xs, xs + ys) == Ok(false)
  {
    if xs != [] {
      assert (xs + ys)[0] == xs[0] && (xs + ys)[1..] == xs[1..] + ys;
      GreaterThanPrefix(xs[1..], ys);
    } else {
      assert xs + ys == ys;
    }
  }

  /** `a OP b` as Python computes it on these values: `+` adds integers and
      concatenates two lists; `*` multiplies integers and repeats a list by an
      integer on either side; `-`, `//` and `%` take integers only and fail on a zero
      divisor; `max(a, b)` keeps `a` unless `b > a`.  Any other pairing is a type
      error. */
  function ApplyOp(op: Op, a: Value, b: Value): (r: Result<Value>)
    ensures op == Max && r.Ok? ==> r.value == a || r.value == b
    ensures op == Max && a.Int? && b.Int? ==> r == Ok(Int(if a.n >= b.n then a.n else b.n))
    ensures r.Err? ==> r.error == TypeMismatch || r.error == ZeroDivision
    ensures r.Err? && r.error == ZeroDivision <==> (op == Div || op == Mod) && a.Int? && b == Int(0)
  {
    match op
    case Add =>
      if a.Int? && b.Int? then Ok(Int(a.n + b.n))
      else if a.List? && b.List? then Ok(List(a.items + b.items))
      else Err(TypeMismatch)
    case Mul =>
      if a.Int? && b.Int? then Ok(Int(a.n * b.n))
      else if a.List? && b.Int? then Ok(List(Repeat(a.items, b.n)))
      else if a.Int? && b.List? then Ok(List(Repeat(b.items, a.n)))
      else Err(TypeMismatch)
    case Max =>
      (match Greater(b, a)
       case Err(e) => Err(e)
       case Ok(greater) => Ok(if greater then b else a))
    case Sub =>
      if a.Int? && b.Int? then Ok(Int(a.n - b.n)) else Err(TypeMismatch)
    case Div =>
      if !a.Int? || !b.Int? then Err(TypeMismatch)
      else if b.n == 0 then Err(ZeroDivision)
      else Ok(Int(FloorDiv(a.n, b.n)))
    case Mod =>
      if !a.Int? || !b.Int? then Err(TypeMismatch)
      else if b.n == 0 then Err(ZeroDivision)
      else Ok(Int(FloorMod(a.n, b.n)))
  }

  /** One token: an operand is pushed; an operator pops `b`, then `a`, and pushes `a OP b`. */
  function Step(stack: seq<Value>, token: string, env: Env): Result<seq<Value>> {
    match Classify(token, env)
    case Operand(v) => Ok(stack + [v])
    case Operator(op) =>
      if |stack| < 2 then Err(StackUnderflow)
      else
        (match ApplyOp(op, stack[|stack| - 2], stack[|stack| - 1])
         case Err(e) => Err(e)
         case Ok(v) => Ok(stack[..|stack| - 2] + [v]))
    case Unrecognised => Err(UnknownToken(token))
  }

  /** The tokens, left to right, from the given stack; the first failure ends the run. */
  function Run(tokens: seq<string>, env: Env, stack: seq<Value>): Result<seq<Value>> {
    if tokens == [] then Ok(stack)
    else
      match Step(stack, tokens[0], env)
      case Err(e) => Err(e)
      case Ok(next) => Run(tokens[1..], env, next)
  }

  /** The whole expression: split on whitespace, run from an empty stack, and
      accept exactly one remaining value. */
  function Evaluate(expression: string, env: Env): Result<Value> {
    match Run(Words(expression), env, [])
    case Err(e) => Err(e)
    case Ok(stack) => if |stack| != 1 then Err(InvalidExpression(expression)) else Ok(stack[0])
  }

  // ---------------------------------------------------------------------------
  // Stack discipline.

  /** The stack depth alone: an operand adds one, an operator needs two and leaves
      one less, and an unrecognised token stops the count. */
  function Depth(tokens: seq<string>, env: Env, d: nat): Option<nat> {
    if tokens == [] then Some(d)
    else
      match Classify(tokens[0], env)
      case Operand(_) => Depth(tokens[1..], env, d + 1)
      case Operator(_) => if d < 2 then None else Depth(tokens[1..], env, d - 1)
      case Unrecognised => None
  }

  /** A run that succeeds ends at exactly the depth the depth count predicts. */
  lemma {:induction false} RunDepth(tokens: seq<string>, env: Env, stack: seq<Value>)
    requires Run(tokens, env, stack).Ok?
    ensures Depth(tokens, env, |stack|) == Some(|Run(tokens, env, stack).value|)
  {
    if tokens != [] {
      RunDepth(tokens[1..], env, Step(stack, tokens[0], env).value);
    }
  }

  /** A run whose depth count fails cannot succeed; and a run that stops on an
      underflow or an unknown token is one whose depth count fails. */
  lemma {:induction false} DepthFailure(tokens: seq<string>, env: Env, stack: seq<Value>)
    ensures Depth(tokens, env, |stack|).None? ==> Run(tokens, env, stack).Err?
    ensures Run(tokens, env, stack) == Err(StackUnderflow) ==> Depth(tokens, env, |stack|).None?
    ensures Run(tokens, env, stack).Err? && Run(tokens, env, stack).error.UnknownToken? ==>
      Depth(tokens, env, |stack|).None?
  {
    if tokens != [] {
      var step := Step(stack, tokens[0], env);
      if step.Ok? {
        DepthFailure(tokens[1..], env, step.value);
      }
    }
  }

  /** An expression evaluates only if its depth count ends at exactly one. */
  lemma EvaluateDepth(expression: string, env: Env)
    ensures Evaluate(expression, env).Ok? ==> Depth(Words(expression), env, 0) == Some(1)
  {
    var tokens := Words(expression);
    var run := Run(tokens, env, []);
    if run.Ok? && |run.value| == 1 {
      RunDepth(tokens, env, []);
    } else {
      assert Evaluate(expression, env).Err?;
    }
  }

  /** Every token is a number or a declared name. */
  predicate AllOperands(tokens: seq<string>, env: Env) {
    tokens == [] || (Classify(tokens[0], env).Operand? && AllOperands(tokens[1..], env))
  }

  /** The values the operand tokens push, in order. */
  function OperandValues(tokens: seq<string>, env: Env): (vs: seq<Value>)
    requires AllOperands(tokens, env)
    ensures |vs| == |tokens|
  {
    if tokens == [] then [] else [Classify(tokens[0], env).v] + OperandValues(tokens[1..], env)
  }

  /** Numbers and names only: each one is pushed in turn and nothing fails. */
  lemma {:induction false} RunOperands(tokens: seq<string>, env: Env, stack: seq<Value>)
    requires AllOperands(tokens, env)
    ensures Run(tokens, env, stack) == Ok(stack + OperandValues(tokens, env))
  {
    if tokens != [] {
      var v := Classify(tokens[0], env).v;
      assert Step(stack, tokens[0], env) == Ok(stack + [v]);
      assert Run(tokens, env, stack) == Run(tokens[1..], env, stack + [v]);
      RunOperands(tokens[1..], env, stack + [v]);
      assert OperandValues(tokens, env) == [v] + OperandValues(tokens[1..], env);
      assert stack + [v] + OperandValues(tokens[1..], env) == stack + OperandValues(tokens, env);
    } else {
      assert stack + [] == stack;
    }
  }

  /** An expression made of numbers and names only evaluates exactly when it is a
      single token, and then yields that token's value. */
  lemma EvaluateOperands(expression: string, env: Env)
    requires AllOperands(Words(expression), env)
    ensures Evaluate(expression, env).Ok? <==> |Words(expression)| == 1
    ensures |Words(expression)| == 1 ==> Evaluate(expression, env) == Ok(Classify(Words(expression)[0], env).v)
    ensures |Words(expression)| != 1 ==> Evaluate(expression, env) == Err(InvalidExpression(expression))
  {
    RunOperands(Words(expression), env, []);
  }

  // ---------------------------------------------------------------------------
  // Operators.

  lemma ClassifyOperator(token: string, env: Env)
    requires OperatorOf(token).Some? && token !in env
    ensures Classify(token, env) == Operator(OperatorOf(token).value)
  {
    assert !IsDigit(token[0]);
  }

  lemma ThreeWords(x: string, y: string, z: string)
    requires x != [] && y != [] && z != [] && NoSpaces(x) && NoSpaces(y) && NoSpaces(z)
    ensures Words(x + " " + y + " " + z) == [x, y, z]
  {
    var tokens := [x, y, z];
    assert Join(tokens[2..], " ") == z;
    assert Join(tokens[1..], " ") == y + " " + z;
    assert Join(tokens, " ") == x + " " + y + " " + z;
    WordsOfJoin(tokens);
  }

  /** One operator token on a two-value stack leaves exactly its result. */
  lemma OperatorOnPair(a: Value, b: Value, token: string, op: Op, env: Env)
    requires Classify(token, env) == Operator(op)
    ensures Run([token], env, [a, b]) ==
      match ApplyOp(op, a, b)
      case Ok(v) => Ok([v])
      case Err(e) => Err(e)
  {
    assert [token][1..] == [];
    var r := ApplyOp(op, a, b);
    if r.Ok? {
      assert [a, b][..0] + [r.value] == [r.value];
      assert Step([a, b], token, env) == Ok([r.value]);
    }
  }

  lemma RunBinary(x: string, y: string, token: string, env: Env)
    requires IsDigits(x) && IsDigits(y)
    requires OperatorOf(token).Some? && token !in env
    ensures Run([x, y, token], env, []) ==
      match ApplyOp(OperatorOf(token).value, Int(DigitsValue(x)), Int(DigitsValue(y)))
      case Ok(v) => Ok([v])
      case Err(e) => Err(e)
  {
    ClassifyOperator(token, env);
    var a, b := Int(DigitsValue(x)), Int(DigitsValue(y));
    assert Classify(x, env) == Operand(a) && Classify(y, env) == Operand(b);
    assert [] + [a] == [a] && [a] + [b] == [a, b];
    assert Step([], x, env) == Ok([a]);
    assert Step([a], y, env) == Ok([a, b]);
    assert [x, y, token][1..] == [y, token] && [y, token][1..] == [token];
    assert Run([x, y, token], env, []) == Run([token], env, [a, b]);
    OperatorOnPair(a, b, token, OperatorOf(token).value, env);
  }

  /** `x y OP` on two digit strings: the earlier operand is the left one, and the result
      is `ApplyOp` of the two values, so `a b -` is `a - b` and `a b /` rounds down. */
  lemma BinaryExpression(x: string, y: string, token: string, env: Env)
    requires IsDigits(x) && IsDigits(y)
    requires OperatorOf(token).Some? && token !in env
    ensures Evaluate(x + " " + y + " " + token, env) ==
            ApplyOp(OperatorOf(token).value, Int(DigitsValue(x)), Int(DigitsValue(y)))
  {
    assert NoSpaces(x) && NoSpaces(y) && NoSpaces(token);
    ThreeWords(x, y, token);
    RunBinary(x, y, token, env);
  }

  /** A declared name shadows the operator of the same spelling: `mod` or `max`,
      once declared, is pushed as a value. */
  lemma NameShadowsOperator(token: string, env: Env, stack: seq<Value>)
    requires token == "mod" || token == "max"
    requires token in env
    ensures Run([token], env, stack) == Ok(stack + [env[token]])
  {
    assert !IsDigit(token[0]);
  }

  /** Running two token lists one after the other is running their concatenation:
      the second starts from the stack the first leaves, and a failure in the first
      is the failure of the whole. */
  lemma {:induction false} RunConcat(first: seq<string>, second: seq<string>, env: Env, stack: seq<Value>)
    ensures Run(first + second, env, stack) ==
      match Run(first, env, stack)
      case Err(e) => Err(e)
      case Ok(next) => Run(second, env, next)
  {
    if first == [] {
      assert first + second == second;
    } else {
      assert (first + second)[0] == first[0] && (first + second)[1..] == first[1..] + second;
      match Step(stack, first[0], env)
      case Err(_) =>
      case Ok(next) => RunConcat(first[1..], second, env, next);
    }
  }

  /** `x OP` on a one-value stack: the value below is the left operand. */
  lemma OperandThenOperator(s: Value, z: string, token: string, env: Env)
    requires IsDigits(z)
    requires OperatorOf(token).Some? && token !in env
    ensures Run([z, token], env, [s]) ==
      match ApplyOp(OperatorOf(token).value, s, Int(DigitsValue(z)))
      case Ok(v) => Ok([v])
      case Err(e) => Err(e)
  {
    ClassifyOperator(token, env);
    var c := Int(DigitsValue(z));
    assert Classify(z, env) == Operand(c);
    assert [s] + [c] == [s, c];
    assert [z, token][1..] == [token];
    assert Run([z, token], env, [s]) == Run([token], env, [s, c]);
    OperatorOnPair(s, c, token, OperatorOf(token).value, env);
  }

  /** `x y OP1 z OP2` is `(x OP1 y) OP2 z`. */
  lemma TwoOperators(x: string, y: string, first: string, z: string, second: string, env: Env)
    requires IsDigits(x) && IsDigits(y) && IsDigits(z)
    requires OperatorOf(first).Some? && first !in env && OperatorOf(second).Some? && second !in env
    requires ApplyOp(OperatorOf(first).value, Int(DigitsValue(x)), Int(DigitsValue(y))).Ok?
    ensures Run([x, y, first, z, second], env, []) ==
      match ApplyOp(OperatorOf(second).value,
                    ApplyOp(OperatorOf(first).value, Int(DigitsValue(x)), Int(DigitsValue(y))).value,
                    Int(DigitsValue(z)))
      case Ok(v) => Ok([v])
      case Err(e) => Err(e)
  {
    assert [x, y, first, z, second] == [x, y, first] + [z, second];
    RunConcat([x, y, first], [z, second], env, []);
    RunBinary(x, y, first, env);
    var s := ApplyOp(OperatorOf(first).value, Int(DigitsValue(x)), Int(DigitsValue(y))).value;
    OperandThenOperator(s, z, second, env);
  }

  /** The tokens of `3 10 - 2 /` leave -4 and those of `3 10 - 2 mod` leave 1, whenever
      the operators are not shadowed by declared names. */
  lemma FloorRuns(env: Env)
    requires "-" !in env && "/" !in env && "mod" !in env
    ensures Run(["3", "10", "-", "2", "/"], env, []) == Ok([Int(-4)])
    ensures Run(["3", "10", "-", "2", "mod"], env, []) == Ok([Int(1)])
  {
    assert IsDigits("3") && IsDigits("10") && IsDigits("2");
    assert DigitsValue("3") == 3 && DigitsValue("10") == 10 && DigitsValue("2") == 2;
    FloorExamples();
    TwoOperators("3", "10", "-", "2", "/", env);
    TwoOperators("3", "10", "-", "2", "mod", env);
  }

  /** The same two examples as `^` expressions, written as words joined by spaces:
      the text splits into those tokens. */
  lemma FloorExpressions(env: Env)
    requires "-" !in env && "/" !in env && "mod" !in env
    ensures Evaluate(SpaceJoined5("3", "10", "-", "2", "/"), env) == Ok(Int(-4))
    ensures Evaluate(SpaceJoined5("3", "10", "-", "2", "mod"), env) == Ok(Int(1))
  {
    FloorRuns(env);
    FiveWords("3", "10", "-", "2", "/");
    FiveWords("3", "10", "-", "2", "mod");
  }

  /** Five words with one space between each. */
  function SpaceJoined5(a: string, b: string, c: string, d: string, e: string): string {
    a + (" " + (b + (" " + (c + (" " + (d + (" " + e)))))))
  }

  /** The two expressions above are the texts `3 10 - 2 /` and `3 10 - 2 mod`. */
  lemma FloorExpressionTexts()
    ensures SpaceJoined5("3", "10", "-", "2", "/") == "3 10 - 2 /"
    ensures SpaceJoined5("3", "10", "-", "2", "mod") == "3 10 - 2 mod"
  {
  }

  lemma FiveWords(a: string, b: string, c: string, d: string, e: string)
    requires a != [] && b != [] && c != [] && d != [] && e != []
    requires NoSpaces(a) && NoSpaces(b) && NoSpaces(c) && NoSpaces(d) && NoSpaces(e)
    ensures Words(SpaceJoined5(a, b, c, d, e)) == [a, b, c, d, e]
  {
    var s3 := d + (" " + e);
    var s2 := c + (" " + s3);
    var s1 := b + (" " + s2);
    WordsSingle(e);
    WordsCons(d, e);
    WordsCons(c, s3);
    WordsCons(b, s2);
    WordsCons(a, s1);
  }

  /** There are no negative literals: a token such as `-10` is neither digits nor an
      identifier, so against a table of identifiers it stops the run. */
  lemma NegativeTokenUnknown(digits: string, rest: seq<string>, env: Env, stack: seq<Value>)
    requires IsDigits(digits) && EnvWellFormed(env)
    ensures Run(["-" + digits] + rest, env, stack) == Err(UnknownToken("-" + digits))
  {
    var token := "-" + digits;
    assert token[0] == '-' && !IsDigit(token[0]) && !IsIdentStart(token[0]);
    assert (["-" + digits] + rest)[0] == token;
    assert token != "-" && token != "+" && token != "*" && token != "/";
    assert token != "mod" && token != "max";
  }

  /** `3 10 - 2 /` is -4 and `3 10 - 2 mod` is 1: the floor conventions. */
  lemma FloorExamples()
    ensures FloorDiv(3 - 10, 2) == -4 && FloorMod(3 - 10, 2) == 1
    ensures FloorDiv(7, -2) == -4 && FloorMod(7, -2) == -1
  {
  }
}
