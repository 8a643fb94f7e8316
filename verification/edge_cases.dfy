/**
 * Worked inputs: the values of a few well-formed expressions, and for each
 * kind of malformed expression the stage that rejects it and the message.
 * Several malformed inputs pass the converter and are only caught by the
 * stack machine's operand counts, which are therefore reachable.
 */
module EdgeCases {
  import opened Wrappers
  import opened Syntax
  import opened Lexer
  import opened ShuntingYard
  import opened PostfixEvaluator
  import opened ExpressionTheory
  import opened Quirks
  import opened Chains

  /** A run of digits and its value, for the numerals used below. */
  lemma Digits(s: string, v: nat)
    requires s != [] && AllDigits(s) && DigitsValue(s) == v
    ensures IsNumeral(s) && NumeralValue(s) == v as real
  {
    DigitsNumeral(s);
  }

  lemma ValueBinary(o: BinOp, a: string, va: real, b: string, vb: real, sqrt: real -> real)
    requires IsNumeral(a) && NumeralValue(a) == va && IsNumeral(b) && NumeralValue(b) == vb
    ensures ValidExpr(Binary(o, Literal(a), Literal(b)))
    ensures o == Div && vb == 0.0 ==> Value(Binary(o, Literal(a), Literal(b)), sqrt) == Failure(DivisionByZero)
    ensures !(o == Div && vb == 0.0) ==> Value(Binary(o, Literal(a), Literal(b)), sqrt) == Success(Apply(o, va, vb))
  {
  }

  // ------------------------------------------------------------- values

  lemma TenPlusOne(expression: string, sqrt: real -> real)
    requires expression == "10 + 1"
    ensures Evaluate(expression, sqrt) == Success(11.0)
  {
    assert Spaced("10", Add, "1") == expression;
    Digits("10", 10);
    Digits("1", 1);
    ValueBinary(Add, "10", 10.0, "1", 1.0, sqrt);
    EvaluateSpaced("10", Add, "1", sqrt);
  }

  lemma TenByZero(expression: string, sqrt: real -> real)
    requires expression == "10 / 0"
    ensures Evaluate(expression, sqrt) == Failure(DivisionByZero)
  {
    assert Spaced("10", Div, "0") == expression;
    Digits("10", 10);
    Digits("0", 0);
    ValueBinary(Div, "10", 10.0, "0", 0.0, sqrt);
    EvaluateSpaced("10", Div, "0", sqrt);
  }

  lemma ValueLeft(o1: BinOp, o2: BinOp, a: string, va: real, b: string, vb: real, c: string, vc: real, sqrt: real -> real)
    requires IsNumeral(a) && NumeralValue(a) == va && IsNumeral(b) && NumeralValue(b) == vb
    requires IsNumeral(c) && NumeralValue(c) == vc
    requires (o1 == Div ==> vb != 0.0) && (o2 == Div ==> vc != 0.0)
    ensures ValidExpr(Binary(o2, Binary(o1, Literal(a), Literal(b)), Literal(c)))
    ensures Value(Binary(o2, Binary(o1, Literal(a), Literal(b)), Literal(c)), sqrt)
         == Success(Apply(o2, Apply(o1, va, vb), vc))
  {
    ValueBinary(o1, a, va, b, vb, sqrt);
  }

  lemma ValueRight(o1: BinOp, o2: BinOp, a: string, va: real, b: string, vb: real, c: string, vc: real, sqrt: real -> real)
    requires IsNumeral(a) && NumeralValue(a) == va && IsNumeral(b) && NumeralValue(b) == vb
    requires IsNumeral(c) && NumeralValue(c) == vc
    requires o1 != Div && o2 != Div
    ensures ValidExpr(Binary(o1, Literal(a), Binary(o2, Literal(b), Literal(c))))
    ensures Value(Binary(o1, Literal(a), Binary(o2, Literal(b), Literal(c))), sqrt)
         == Success(Apply(o1, va, Apply(o2, vb, vc)))
  {
    ValueBinary(o2, b, vb, c, vc, sqrt);
  }

  /** `2 * 3 + 4` converts to `2 3 * 4 +` and evaluates to 10. */
  lemma TimesBeforePlus(expression: string, sqrt: real -> real)
    requires expression == "2 * 3 + 4"
    ensures ToPostfix(expression) == Success([Num("2"), Num("3"), Op(Mul), Num("4"), Op(Add)])
    ensures Evaluate(expression, sqrt) == Success(10.0)
  {
    assert Spaced3("2", Mul, "3", Add, "4") == expression;
    Digits("2", 2);
    Digits("3", 3);
    Digits("4", 4);
    ToPostfixHigherFirst("2", Mul, "3", Add, "4");
    ValueLeft(Mul, Add, "2", 2.0, "3", 3.0, "4", 4.0, sqrt);
    EvaluateHigherFirst("2", Mul, "3", Add, "4", sqrt);
  }

  /** `2 + 3 * 4` converts to `2 3 4 * +` and evaluates to 14. */
  lemma PlusThenTimes(expression: string, sqrt: real -> real)
    requires expression == "2 + 3 * 4"
    ensures ToPostfix(expression) == Success([Num("2"), Num("3"), Num("4"), Op(Mul), Op(Add)])
    ensures Evaluate(expression, sqrt) == Success(14.0)
  {
    assert Spaced3("2", Add, "3", Mul, "4") == expression;
    Digits("2", 2);
    Digits("3", 3);
    Digits("4", 4);
    ToPostfixLowerFirst("2", Add, "3", Mul, "4");
    ValueRight(Add, Mul, "2", 2.0, "3", 3.0, "4", 4.0, sqrt);
    EvaluateLowerFirst("2", Add, "3", Mul, "4", sqrt);
  }

  /** Equal ranks associate to the left: `8 - 3 - 2` is 3, not 7. */
  lemma MinusLeftAssociative(expression: string, sqrt: real -> real)
    requires expression == "8 - 3 - 2"
    ensures Evaluate(expression, sqrt) == Success(3.0)
  {
    assert Spaced3("8", Sub, "3", Sub, "2") == expression;
    Digits("8", 8);
    Digits("3", 3);
    Digits("2", 2);
    ValueLeft(Sub, Sub, "8", 8.0, "3", 3.0, "2", 2.0, sqrt);
    EvaluateHigherFirst("8", Sub, "3", Sub, "2", sqrt);
  }

  /** `8 / 4 / 2` is 1, not 4. */
  lemma DivideLeftAssociative(expression: string, sqrt: real -> real)
    requires expression == "8 / 4 / 2"
    ensures Evaluate(expression, sqrt) == Success(1.0)
  {
    assert Spaced3("8", Div, "4", Div, "2") == expression;
    Digits("8", 8);
    Digits("4", 4);
    Digits("2", 2);
    ValueLeft(Div, Div, "8", 8.0, "4", 4.0, "2", 2.0, sqrt);
    EvaluateHigherFirst("8", Div, "4", Div, "2", sqrt);
  }

  /** `sqrt(16)` converts to `16 sqrt` and evaluates to the square root of 16. */
  lemma RootOfSixteen(expression: string, sqrt: real -> real)
    requires expression == "sqrt(16)"
    ensures ToPostfix(expression) == Success([Num("16"), Sqrt])
    ensures Evaluate(expression, sqrt) == Success(sqrt(16.0))
  {
    Digits("16", 16);
    assert Parenthesized(Root(Literal("16"))) == expression;
    RootOfNumeral("16", 16.0, sqrt);
  }

  lemma RootOfNumeral(a: string, v: real, sqrt: real -> real)
    requires IsNumeral(a) && NumeralValue(a) == v
    ensures ToPostfix(Parenthesized(Root(Literal(a)))) == Success([Num(a), Sqrt])
    ensures Evaluate(Parenthesized(Root(Literal(a))), sqrt) == Success(sqrt(v))
  {
    RootTree(a, v, sqrt);
    ToPostfixParenthesized(Root(Literal(a)));
    EvaluateParenthesized(Root(Literal(a)), sqrt);
  }

  lemma RootTree(a: string, v: real, sqrt: real -> real)
    requires IsNumeral(a) && NumeralValue(a) == v
    ensures ValidExpr(Root(Literal(a)))
    ensures PostOrder(Root(Literal(a))) == [Num(a), Sqrt]
    ensures Value(Root(Literal(a)), sqrt) == Success(sqrt(v))
  {
  }

  /** A lone number is an expression; its value is the number. */
  lemma LoneNumber(expression: string, sqrt: real -> real)
    requires expression == "5"
    ensures Evaluate(expression, sqrt) == Success(5.0)
  {
    Digits("5", 5);
    assert Parenthesized(Literal("5")) == expression;
    EvaluateParenthesized(Literal("5"), sqrt);
  }
}
