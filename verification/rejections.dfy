/**
 * Malformed expressions: which stage rejects each one, and with which
 * message. Some of them pass the converter and are only caught by the stack
 * machine's operand counts, so those checks in the evaluator are reachable.
 */
module Rejections {
  import opened Wrappers
  import opened Syntax
  import opened Lexer
  import opened ShuntingYard
  import opened PostfixEvaluator
  import opened ExpressionTheory
  import opened Quirks
  import opened Chains
  import opened EdgeCases

  // ------------------------------------------------------------ texts

  /** Two pieces of text joined by one space. */
  function Joined(x: string, y: string): string {
    x + (" " + y)
  }

  /** A text after an open parenthesis that is never closed. */
  function Opened(x: string): string {
    "(" + x
  }

  /** A text in parentheses. */
  function Enclosed(x: string): string {
    "(" + x + ")"
  }

  // ------------------------------------------------------------ scanning

  lemma ScanJoined(x: string, y: string, sx: seq<Item>, sy: seq<Item>)
    requires Scan(x) == sx && Scan(y) == sy
    ensures Scan(Joined(x, y)) == sx + ([Blank] + sy)
  {
    ScanSpaceThen(y, sy);
    ScanExtend(x, " " + y, sx, [Blank] + sy);
  }

  lemma ScanOpened(x: string, sx: seq<Item>)
    requires Scan(x) == sx
    ensures Scan(Opened(x)) == [Tok(LParen)] + sx
  {
    ScanLexeme(LParen);
    ScanExtend("(", x, [Tok(LParen)], sx);
  }

  lemma ScanEnclosed(x: string, sx: seq<Item>)
    requires Scan(x) == sx
    ensures Scan(Enclosed(x)) == [Tok(LParen)] + sx + [Tok(RParen)]
  {
    ScanOpened(x, sx);
    ScanLexeme(RParen);
    ScanExtend(Opened(x), ")", [Tok(LParen)] + sx, [Tok(RParen)]);
  }

  lemma ScanEnclosedThen(x: string, sx: seq<Item>, y: string, sy: seq<Item>)
    requires Scan(x) == sx && Scan(y) == sy
    ensures Scan(Enclosed(x) + y) == [Tok(LParen)] + sx + [Tok(RParen)] + sy
  {
    ScanEnclosed(x, sx);
    var z := Enclosed(x);
    assert z[|z| - 1] == ')';
    ScanExtend(z, y, [Tok(LParen)] + sx + [Tok(RParen)], sy);
  }

  lemma ScanRootOf(x: string, sx: seq<Item>)
    requires Scan(x) == sx
    ensures Scan("sqrt" + Enclosed(x)) == [Tok(Sqrt)] + ([Tok(LParen)] + sx + [Tok(RParen)])
  {
    ScanLexeme(Sqrt);
    ScanEnclosed(x, sx);
    var z := Enclosed(x);
    assert z[0] == '(';
    ScanExtend("sqrt", z, [Tok(Sqrt)], [Tok(LParen)] + sx + [Tok(RParen)]);
  }

  /** A word already known to scan as bad, followed by text that starts at a delimiter. */
  lemma ScanBadThen(w: string, rest: string)
    requires Scan(w) == [Bad(w)]
    requires rest == [] || IsDelimiter(rest[0])
    ensures Scan(w + rest) == [Bad(w)] + Scan(rest)
  {
    ScanExtend(w, rest, [Bad(w)], Scan(rest));
  }

  lemma ScanTrailing(a: string, o: BinOp)
    requires IsNumeral(a)
    ensures Scan(Joined(a, [Symbol(o)])) == [Tok(Num(a))] + ([Blank] + [Tok(Op(o))])
  {
    ScanNumeral(a);
    ScanOperator(o);
    ScanJoined(a, [Symbol(o)], [Tok(Num(a))], [Tok(Op(o))]);
  }

  lemma ScanTwoNumbers(a: string, b: string)
    requires IsNumeral(a) && IsNumeral(b)
    ensures Scan(Joined(a, b)) == [Tok(Num(a))] + ([Blank] + [Tok(Num(b))])
  {
    ScanNumeral(a);
    ScanNumeral(b);
    ScanJoined(a, b, [Tok(Num(a))], [Tok(Num(b))]);
  }

  // ------------------------------------------------ from items to results

  /** A conversion that fails is the evaluation's failure too. */
  lemma RejectVia(expression: string, items: seq<Item>, e: ExprError, sqrt: real -> real)
    requires Scan(expression) == items && Run(Start, items) == Failure(e)
    ensures ToPostfix(expression) == Failure(e)
    ensures Evaluate(expression, sqrt) == Failure(e)
  {
  }

  // ------------------------------------------------------- evaluation

  lemma EvalTwoNumbers(a: string, b: string, sqrt: real -> real)
    requires IsNumeral(a) && IsNumeral(b)
    ensures EvalPostfix(Lexemes([Num(a), Num(b)]), sqrt) == Failure(TooManyValues)
  {
    var st1 := EvalWord([], a, sqrt).value;
    var st2 := EvalWord(st1, b, sqrt).value;
    EvalPrepend([], a, [b], st1, sqrt);
    EvalPrepend(st1, b, [], st2, sqrt);
    assert Lexemes([Num(a), Num(b)]) == [a] + [b];
    assert [b] == [b] + [];
    assert |st2| == 2;
  }

  /** The evaluation of a text whose non-empty postfix is known: its words are the tokens' spellings. */
  lemma EvaluateFrom(expression: string, p: seq<Token>, sqrt: real -> real)
    requires AllWellFormed(p) && p != []
    requires ToPostfix(expression) == Success(p)
    ensures Evaluate(expression, sqrt) == EvalPostfix(Lexemes(p), sqrt)
  {
    SplitRender(p);
  }

  lemma PairWellFormed(x: Token, y: Token)
    requires WellFormed(x) && WellFormed(y)
    ensures AllWellFormed([x, y])
  {
  }

  /** A conversion that ends expecting an operator with an empty stack yields its output. */
  lemma ConvertDone(expression: string, items: seq<Item>, p: seq<Token>)
    requires Scan(expression) == items && Run(Start, items) == Success(Converter(p, [], false))
    ensures ToPostfix(expression) == Success(p)
  {
    ConvertVia(expression, items, Converter(p, [], false));
    assert p + [] == p;
  }

  /** A postfix of two numbers leaves two values on the stack. */
  lemma TwoValuesLeft(expression: string, a: string, b: string, sqrt: real -> real)
    requires IsNumeral(a) && IsNumeral(b)
    requires ToPostfix(expression) == Success([Num(a), Num(b)])
    ensures Evaluate(expression, sqrt) == Failure(TooManyValues)
  {
    PairWellFormed(Num(a), Num(b));
    EvaluateFrom(expression, [Num(a), Num(b)], sqrt);
    EvalTwoNumbers(a, b, sqrt);
  }

  lemma EvalLoneOperator(a: string, o: BinOp, sqrt: real -> real)
    requires IsNumeral(a)
    ensures EvalPostfix(Lexemes([Num(a), Op(o)]), sqrt) == Failure(InsufficientValues([Symbol(o)]))
  {
    var st1 := EvalWord([], a, sqrt).value;
    EvalPrepend([], a, [[Symbol(o)]], st1, sqrt);
    assert Lexemes([Num(a), Op(o)]) == [a] + [[Symbol(o)]];
    assert OperatorOf([Symbol(o)]) == Some(o);
  }

  /** A postfix of a number and an operator finds one operand for the operator. */
  lemma LoneOperator(expression: string, a: string, o: BinOp, sqrt: real -> real)
    requires IsNumeral(a)
    requires ToPostfix(expression) == Success([Num(a), Op(o)])
    ensures Evaluate(expression, sqrt) == Failure(InsufficientValues([Symbol(o)]))
  {
    PairWellFormed(Num(a), Op(o));
    EvaluateFrom(expression, [Num(a), Op(o)], sqrt);
    EvalLoneOperator(a, o, sqrt);
  }

  /** A postfix holding only `sqrt` has nothing to take the root of. */
  lemma LoneRoot(expression: string, sqrt: real -> real)
    requires ToPostfix(expression) == Success([Sqrt])
    ensures Evaluate(expression, sqrt) == Failure(NoValueForSqrt)
  {
    SplitRender([Sqrt]);
    assert Lexemes([Sqrt]) == [Lexeme(Sqrt)];
    EvalLoneRoot(sqrt);
  }

  lemma EvalLoneRoot(sqrt: real -> real)
    ensures EvalPostfix([Lexeme(Sqrt)], sqrt) == Failure(NoValueForSqrt)
  {
    var w := Lexeme(Sqrt);
    NotNumeral(w, 0);
    assert OperatorOf(w).None?;
    assert EvalWord([], w, sqrt) == Failure(NoValueForSqrt);
  }

  /** An empty postfix renders as the empty string, whose one piece is no token. */
  lemma EmptyPostfix(expression: string, sqrt: real -> real)
    requires ToPostfix(expression) == Success([])
    ensures Evaluate(expression, sqrt) == Failure(InvalidPostfixToken(""))
  {
    var none: seq<Token> := [];
    var pieces: seq<string> := [[]];
    SplitRender(none);
    assert !IsNumeral("");
    assert pieces[1..] == [];
  }

  // ------------------------------------------------------ converter runs

  /** The converter's first step from the start, on a number or an open parenthesis. */
  lemma StartNumber(a: string)
    ensures Step(Start, Tok(Num(a))) == Success(Converter([Num(a)], [], false))
  {
    assert Start.out + [Num(a)] == [Num(a)];
  }

  lemma StartOpen()
    ensures Step(Start, Tok(LParen)) == Success(Converter([], [LParen], true))
  {
    assert [LParen] + Start.stack == [LParen];
  }

  /** An operator read with an empty stack is pushed. */
  lemma PushOnEmpty(out: seq<Token>, o: BinOp)
    ensures Step(Converter(out, [], false), Tok(Op(o))) == Success(Converter(out, [Op(o)], true))
  {
    var c := Converter(out, [], false);
    assert c.out + c.stack[..0] == c.out && c.stack[0..] == c.stack;
    assert [Op(o)] + c.stack == [Op(o)];
  }

  /** `)` with the open parenthesis on top of the stack just drops it. */
  lemma CloseAtTop(out: seq<Token>, flag: bool)
    ensures Step(Converter(out, [LParen], flag), Tok(RParen)) == Success(Converter(out, [], false))
  {
    var c := Converter(out, [LParen], flag);
    assert OpenPrefix(c.stack) == 0;
    assert c.out + c.stack[..0] == out && c.stack[0..] == [LParen];
  }

  lemma RunTrailing(a: string, o: BinOp)
    ensures Run(Start, [Tok(Num(a))] + ([Blank] + [Tok(Op(o))])) == Success(Converter([Num(a)], [Op(o)], true))
  {
    var c1 := Converter([Num(a)], [], false);
    assert [Tok(Num(a))] + ([Blank] + [Tok(Op(o))]) == [Tok(Num(a))] + [Blank, Tok(Op(o))];
    assert [Blank, Tok(Op(o))] == [Blank] + [Tok(Op(o))];
    StartNumber(a);
    RunPrepend(Start, Tok(Num(a)), [Blank, Tok(Op(o))], c1);
    RunPrepend(c1, Blank, [Tok(Op(o))], c1);
    PushOnEmpty([Num(a)], o);
    RunSingle(c1, Tok(Op(o)));
  }

  lemma RunUnclosed(a: string, o: BinOp, b: string)
    ensures Run(Start, [Tok(LParen)] + ([Tok(Num(a))] + Tail(o, b)))
         == Success(Converter([Num(a), Num(b)], [Op(o), LParen], false))
  {
    var c0 := Converter([], [LParen], true);
    var c1 := Converter([Num(a)], [LParen], false);
    StartOpen();
    RunPrepend(Start, Tok(LParen), [Tok(Num(a))] + Tail(o, b), c0);
    assert [] + [Num(a)] == [Num(a)];
    assert Step(c0, Tok(Num(a))) == Success(c1);
    RunPrepend(c0, Tok(Num(a)), Tail(o, b), c1);
    PrecedenceOrder(o);
    assert HigherPrefix(c1.stack, Precedence(Op(o))) == 0;
    RunTailPush(c1, o, b);
    assert [Num(a)] + [Num(b)] == [Num(a), Num(b)];
    assert [Op(o)] + [LParen] == [Op(o), LParen];
  }

  lemma RunTwoNumbers(a: string, b: string)
    ensures Run(Start, [Tok(Num(a))] + ([Blank] + [Tok(Num(b))])) == Success(Converter([Num(a), Num(b)], [], false))
  {
    var c1 := Converter([Num(a)], [], false);
    assert [Tok(Num(a))] + ([Blank] + [Tok(Num(b))]) == [Tok(Num(a))] + [Blank, Tok(Num(b))];
    assert [Blank, Tok(Num(b))] == [Blank] + [Tok(Num(b))];
    StartNumber(a);
    RunPrepend(Start, Tok(Num(a)), [Blank, Tok(Num(b))], c1);
    RunPrepend(c1, Blank, [Tok(Num(b))], c1);
    assert [Num(a)] + [Num(b)] == [Num(a), Num(b)];
    RunSingle(c1, Tok(Num(b)));
  }

  lemma RunGroupThenNumber(a: string, b: string)
    ensures Run(Start, [Tok(LParen)] + [Tok(Num(a))] + [Tok(RParen)] + [Tok(Num(b))])
         == Success(Converter([Num(a), Num(b)], [], false))
  {
    var c0 := Converter([], [LParen], true);
    var c1 := Converter([Num(a)], [LParen], false);
    StartOpen();
    assert [] + [Num(a)] == [Num(a)];
    assert Step(c0, Tok(Num(a))) == Success(c1);
    Regroup([Tok(LParen)], [Tok(Num(a))], [Tok(RParen)], [Tok(Num(b))]);
    Regroup3([Tok(Num(a))], [Tok(RParen)], [Tok(Num(b))]);
    RunPrepend(Start, Tok(LParen), [Tok(Num(a))] + ([Tok(RParen)] + [Tok(Num(b))]), c0);
    RunPrepend(c0, Tok(Num(a)), [Tok(RParen)] + [Tok(Num(b))], c1);
    RunCloseThenNumber(a, b);
  }

  /** `)` closing a group that holds one number, then another number. */
  lemma RunCloseThenNumber(a: string, b: string)
    ensures Run(Converter([Num(a)], [LParen], false), [Tok(RParen)] + [Tok(Num(b))])
         == Success(Converter([Num(a), Num(b)], [], false))
  {
    var c2 := Converter([Num(a)], [], false);
    CloseAtTop([Num(a)], false);
    RunPrepend(Converter([Num(a)], [LParen], false), Tok(RParen), [Tok(Num(b))], c2);
    RunSingle(c2, Tok(Num(b)));
    assert [Num(a)] + [Num(b)] == [Num(a), Num(b)];
  }

  lemma RunEmptyRoot()
    ensures Run(Start, [Tok(Sqrt)] + ([Tok(LParen)] + [] + [Tok(RParen)])) == Success(Converter([Sqrt], [], false))
  {
    var c := Converter([], [LParen, Sqrt], true);
    var c' := Converter([Sqrt], [], false);
    OpenRoot(Start);
    assert [LParen, Sqrt] + Start.stack == [LParen, Sqrt];
    assert OpenPrefix(c.stack) == 0;
    assert c.out + c.stack[..0] == [] && c.stack[0..] == c.stack;
    assert c.stack[1..] == [Sqrt] && [Sqrt][1..] == [];
    assert [] + [Sqrt] == [Sqrt];
    assert Step(c, Tok(RParen)) == Success(c');
    RunSingle(c, Tok(RParen));
    RunChain(Start, [Tok(Sqrt), Tok(LParen)], c, [Tok(RParen)], c');
    assert [Tok(Sqrt)] + ([Tok(LParen)] + [] + [Tok(RParen)]) == [Tok(Sqrt), Tok(LParen)] + [Tok(RParen)];
  }

  lemma RunUnfinishedGroup(a: string, o: BinOp)
    ensures Run(Start, [Tok(LParen)] + ([Tok(Num(a))] + ([Blank] + [Tok(Op(o))])) + [Tok(RParen)])
         == Success(Converter([Num(a), Op(o)], [], false))
  {
    var x := [Tok(Num(a))] + ([Blank] + [Tok(Op(o))]);
    var c0 := Converter([], [LParen], true);
    var c2 := Converter([Num(a)], [Op(o), LParen], true);
    var c3 := Converter([Num(a), Op(o)], [], false);
    OpenAtStart();
    RunNumberOperator(a, o);
    CloseAfterOperator(a, o);
    RunChain(Start, [Tok(LParen)], c0, x, c2);
    RunChain(Start, [Tok(LParen)] + x, c2, [Tok(RParen)], c3);
  }

  lemma OpenAtStart()
    ensures Run(Start, [Tok(LParen)]) == Success(Converter([], [LParen], true))
  {
    RunOpen(Start);
    assert [LParen] + Start.stack == [LParen];
  }

  /** Inside a fresh group: a number, a blank and an operator. */
  lemma RunNumberOperator(a: string, o: BinOp)
    ensures Run(Converter([], [LParen], true), [Tok(Num(a))] + ([Blank] + [Tok(Op(o))]))
         == Success(Converter([Num(a)], [Op(o), LParen], true))
  {
    var c0 := Converter([], [LParen], true);
    var c1 := Converter([Num(a)], [LParen], false);
    assert [] + [Num(a)] == [Num(a)];
    assert Step(c0, Tok(Num(a))) == Success(c1);
    RunPrepend(c0, Tok(Num(a)), [Blank] + [Tok(Op(o))], c1);
    RunPrepend(c1, Blank, [Tok(Op(o))], c1);
    RunPushOperator(o, [Num(a)], []);
    assert [LParen] + [] == [LParen] && [Op(o), LParen] + [] == [Op(o), LParen];
  }

  /** A `)` right after an operator pops the operator and the group's parenthesis. */
  lemma CloseAfterOperator(a: string, o: BinOp)
    ensures Run(Converter([Num(a)], [Op(o), LParen], true), [Tok(RParen)])
         == Success(Converter([Num(a), Op(o)], [], false))
  {
    var c2 := Converter([Num(a)], [Op(o), LParen], true);
    assert OpenPrefix(c2.stack) == 1;
    assert c2.out + c2.stack[..1] == [Num(a), Op(o)] && c2.stack[1..] == [LParen];
    assert Step(c2, Tok(RParen)) == Success(Converter([Num(a), Op(o)], [], false));
    RunSingle(c2, Tok(RParen));
  }

  lemma RunEmptyParentheses()
    ensures Run(Start, [Tok(LParen)] + [] + [Tok(RParen)]) == Success(Converter([], [], false))
  {
    var c0 := Converter([], [LParen], true);
    StartOpen();
    CloseAtTop([], true);
    assert [Tok(LParen)] + [] + [Tok(RParen)] == [Tok(LParen)] + [Tok(RParen)];
    RunPrepend(Start, Tok(LParen), [Tok(RParen)], c0);
    RunSingle(c0, Tok(RParen));
  }

  // ---------------------------------------------------- trailing operator

  /** A number followed by an operator and nothing else is rejected at the end of input. */
  lemma TrailingOperatorRejected(a: string, o: BinOp, sqrt: real -> real)
    requires IsNumeral(a)
    ensures ToPostfix(Joined(a, [Symbol(o)])) == Failure(EndsWithOperator)
    ensures Evaluate(Joined(a, [Symbol(o)]), sqrt) == Failure(EndsWithOperator)
  {
    ScanTrailing(a, o);
    RunTrailing(a, o);
    ConvertVia(Joined(a, [Symbol(o)]), [Tok(Num(a))] + ([Blank] + [Tok(Op(o))]), Converter([Num(a)], [Op(o)], true));
  }

  lemma FivePlus(expression: string, sqrt: real -> real)
    requires expression == "5 +"
    ensures Evaluate(expression, sqrt) == Failure(EndsWithOperator)
  {
    Digits("5", 5);
    assert Joined("5", [Symbol(Add)]) == expression;
    TrailingOperatorRejected("5", Add, sqrt);
  }

  // ----------------------------------------------------- unclosed group

  lemma ScanUnclosed(a: string, o: BinOp, b: string)
    requires IsNumeral(a) && IsNumeral(b)
    ensures Scan(Opened(Spaced(a, o, b))) == [Tok(LParen)] + ([Tok(Num(a))] + Tail(o, b))
  {
    ScanSpaced(a, o, b);
    ScanOpened(Spaced(a, o, b), [Tok(Num(a))] + Tail(o, b));
  }

  /** An open parenthesis that is never closed is rejected when the stack is drained. */
  lemma UnclosedRejected(a: string, o: BinOp, b: string, sqrt: real -> real)
    requires IsNumeral(a) && IsNumeral(b)
    ensures ToPostfix(Opened(Spaced(a, o, b))) == Failure(MismatchedParentheses)
    ensures Evaluate(Opened(Spaced(a, o, b)), sqrt) == Failure(MismatchedParentheses)
  {
    ScanUnclosed(a, o, b);
    RunUnclosed(a, o, b);
    ConvertVia(Opened(Spaced(a, o, b)), [Tok(LParen)] + ([Tok(Num(a))] + Tail(o, b)),
               Converter([Num(a), Num(b)], [Op(o), LParen], false));
  }

  lemma OpenTwoPlusThree(expression: string, sqrt: real -> real)
    requires expression == "(2 + 3"
    ensures Evaluate(expression, sqrt) == Failure(MismatchedParentheses)
  {
    Digits("2", 2);
    Digits("3", 3);
    assert Opened(Spaced("2", Add, "3")) == expression;
    UnclosedRejected("2", Add, "3", sqrt);
  }

  // --------------------------------------------------- two values left over

  /** Juxtaposed numbers pass the converter and are caught by the final count. */
  lemma JuxtaposedNumbers(a: string, b: string, sqrt: real -> real)
    requires IsNumeral(a) && IsNumeral(b)
    ensures ToPostfix(Joined(a, b)) == Success([Num(a), Num(b)])
    ensures Evaluate(Joined(a, b), sqrt) == Failure(TooManyValues)
  {
    JuxtaposedConverts(a, b);
    TwoValuesLeft(Joined(a, b), a, b, sqrt);
  }

  lemma JuxtaposedConverts(a: string, b: string)
    requires IsNumeral(a) && IsNumeral(b)
    ensures ToPostfix(Joined(a, b)) == Success([Num(a), Num(b)])
  {
    ScanTwoNumbers(a, b);
    RunTwoNumbers(a, b);
    ConvertDone(Joined(a, b), [Tok(Num(a))] + ([Blank] + [Tok(Num(b))]), [Num(a), Num(b)]);
  }

  lemma FiveThree(expression: string, sqrt: real -> real)
    requires expression == "5 3"
    ensures ToPostfix(expression) == Success([Num("5"), Num("3")])
    ensures Evaluate(expression, sqrt) == Failure(TooManyValues)
  {
    Digits("5", 5);
    Digits("3", 3);
    assert Joined("5", "3") == expression;
    JuxtaposedNumbers("5", "3", sqrt);
  }

  lemma ScanGroupThenNumber(a: string, b: string)
    requires IsNumeral(a) && IsNumeral(b)
    ensures Scan(Enclosed(a) + b) == [Tok(LParen)] + [Tok(Num(a))] + [Tok(RParen)] + [Tok(Num(b))]
  {
    ScanNumeral(a);
    ScanNumeral(b);
    ScanEnclosedThen(a, [Tok(Num(a))], b, [Tok(Num(b))]);
  }

  /** A number right after a closing parenthesis is not an error for the converter either. */
  lemma GroupThenNumber(a: string, b: string, sqrt: real -> real)
    requires IsNumeral(a) && IsNumeral(b)
    ensures ToPostfix(Enclosed(a) + b) == Success([Num(a), Num(b)])
    ensures Evaluate(Enclosed(a) + b, sqrt) == Failure(TooManyValues)
  {
    GroupThenNumberConverts(a, b);
    TwoValuesLeft(Enclosed(a) + b, a, b, sqrt);
  }

  lemma GroupThenNumberConverts(a: string, b: string)
    requires IsNumeral(a) && IsNumeral(b)
    ensures ToPostfix(Enclosed(a) + b) == Success([Num(a), Num(b)])
  {
    ScanGroupThenNumber(a, b);
    RunGroupThenNumber(a, b);
    ConvertDone(Enclosed(a) + b, [Tok(LParen)] + [Tok(Num(a))] + [Tok(RParen)] + [Tok(Num(b))], [Num(a), Num(b)]);
  }

  lemma GroupTwoThenThree(expression: string, sqrt: real -> real)
    requires expression == "(2)3"
    ensures ToPostfix(expression) == Success([Num("2"), Num("3")])
    ensures Evaluate(expression, sqrt) == Failure(TooManyValues)
  {
    Digits("2", 2);
    Digits("3", 3);
    assert Enclosed("2") + "3" == expression;
    GroupThenNumber("2", "3", sqrt);
  }

  // ------------------------------------------------ caught by the stack machine

  /** `sqrt()` converts to a lone `sqrt`, which finds no value to take the root of. */
  lemma EmptyRoot(expression: string, sqrt: real -> real)
    requires expression == "sqrt()"
    ensures ToPostfix(expression) == Success([Sqrt])
    ensures Evaluate(expression, sqrt) == Failure(NoValueForSqrt)
  {
    EmptyRootConverts(expression);
    LoneRoot(expression, sqrt);
  }

  lemma EmptyRootConverts(expression: string)
    requires expression == "sqrt()"
    ensures ToPostfix(expression) == Success([Sqrt])
  {
    assert "sqrt" + Enclosed([]) == expression;
    ScanRootOf([], []);
    RunEmptyRoot();
    ConvertDone(expression, [Tok(Sqrt)] + ([Tok(LParen)] + [] + [Tok(RParen)]), [Sqrt]);
  }

  lemma ScanUnfinishedGroup(a: string, o: BinOp)
    requires IsNumeral(a)
    ensures Scan(Enclosed(Joined(a, [Symbol(o)]))) == [Tok(LParen)] + ([Tok(Num(a))] + ([Blank] + [Tok(Op(o))])) + [Tok(RParen)]
  {
    ScanTrailing(a, o);
    ScanEnclosed(Joined(a, [Symbol(o)]), [Tok(Num(a))] + ([Blank] + [Tok(Op(o))]));
  }

  /**
   * An operator right before a closing parenthesis is not caught by the
   * converter, which clears the flag on `)`; the stack machine then finds the
   * operator with only one operand.
   */
  lemma UnfinishedGroup(a: string, o: BinOp, sqrt: real -> real)
    requires IsNumeral(a)
    ensures ToPostfix(Enclosed(Joined(a, [Symbol(o)]))) == Success([Num(a), Op(o)])
    ensures Evaluate(Enclosed(Joined(a, [Symbol(o)])), sqrt) == Failure(InsufficientValues([Symbol(o)]))
  {
    UnfinishedGroupConverts(a, o);
    LoneOperator(Enclosed(Joined(a, [Symbol(o)])), a, o, sqrt);
  }

  lemma UnfinishedGroupConverts(a: string, o: BinOp)
    requires IsNumeral(a)
    ensures ToPostfix(Enclosed(Joined(a, [Symbol(o)]))) == Success([Num(a), Op(o)])
  {
    ScanUnfinishedGroup(a, o);
    RunUnfinishedGroup(a, o);
    ConvertDone(Enclosed(Joined(a, [Symbol(o)])), [Tok(LParen)] + ([Tok(Num(a))] + ([Blank] + [Tok(Op(o))])) + [Tok(RParen)],
                [Num(a), Op(o)]);
  }

  lemma OpenTwoPlusClose(expression: string, sqrt: real -> real)
    requires expression == "(2 +)"
    ensures ToPostfix(expression) == Success([Num("2"), Op(Add)])
    ensures Evaluate(expression, sqrt) == Failure(InsufficientValues("+"))
  {
    Digits("2", 2);
    assert Enclosed(Joined("2", [Symbol(Add)])) == expression;
    UnfinishedGroup("2", Add, sqrt);
  }

  /**
   * Empty parentheses convert to an empty postfix; its rendering splits into
   * one empty piece, which the stack machine rejects as a token.
   */
  lemma EmptyParentheses(expression: string, sqrt: real -> real)
    requires expression == "()"
    ensures ToPostfix(expression) == Success([])
    ensures Evaluate(expression, sqrt) == Failure(InvalidPostfixToken(""))
  {
    assert Enclosed([]) == expression;
    ScanEnclosed([], []);
    RunEmptyParentheses();
    ConvertVia(expression, [Tok(LParen)] + [] + [Tok(RParen)], Converter([], [], false));
    assert Converter([], [], false).out + [] == [];
    EmptyPostfix(expression, sqrt);
  }

  // ------------------------------------------------------- rejected early

  /** A closing parenthesis with nothing open is rejected on the spot. */
  lemma LeadingCloseRejected(rest: string, sqrt: real -> real)
    ensures ToPostfix(")" + rest) == Failure(MismatchedParentheses)
    ensures Evaluate(")" + rest, sqrt) == Failure(MismatchedParentheses)
  {
    ScanCloseThen(rest);
    var items := [Tok(RParen)] + Scan(rest);
    assert items[0] == Tok(RParen);
    RejectVia(")" + rest, items, MismatchedParentheses, sqrt);
  }

  lemma ScanCloseThen(rest: string)
    ensures Scan(")" + rest) == [Tok(RParen)] + Scan(rest)
  {
    ScanLexeme(RParen);
    ScanExtend(")", rest, [Tok(RParen)], Scan(rest));
  }

  /** A run with no trimmable end that is neither a number nor `sqrt` is classified as bad. */
  lemma ClassifyWord(w: string)
    requires IsRun(w) && !IsTrimmable(w[0]) && !IsTrimmable(w[|w| - 1])
    requires !IsNumeral(w) && w != "sqrt"
    ensures Scan(w) == [Bad(w)]
  {
    assert IsPiece(w);
    ScanPiece(w);
    ClassifyRun(w);
  }

  /** A run is no operator or parenthesis, so unless it is a number or `sqrt` it is bad. */
  lemma ClassifyRun(w: string)
    requires IsRun(w) && !IsNumeral(w) && w != "sqrt"
    ensures Classify(w) == Bad(w)
  {
    if |w| == 1 {
      assert !IsDelimiter(w[0]);
      assert w == [w[0]];
    }
  }

  /**
   * A word that is not a number, not `sqrt` and not an operator or a
   * parenthesis is rejected as an invalid token, quoting the word.
   */
  lemma InvalidWordRejected(w: string, rest: string, sqrt: real -> real)
    requires IsRun(w) && !IsTrimmable(w[0]) && !IsTrimmable(w[|w| - 1])
    requires !IsNumeral(w) && w != "sqrt"
    requires rest == [] || IsDelimiter(rest[0])
    ensures ToPostfix(w + rest) == Failure(InvalidToken(w))
    ensures Evaluate(w + rest, sqrt) == Failure(InvalidToken(w))
  {
    ScanInvalidWord(w, rest);
    RejectBad(w + rest, w, Scan(rest), sqrt);
  }

  lemma ScanInvalidWord(w: string, rest: string)
    requires IsRun(w) && !IsTrimmable(w[0]) && !IsTrimmable(w[|w| - 1])
    requires !IsNumeral(w) && w != "sqrt"
    requires rest == [] || IsDelimiter(rest[0])
    ensures Scan(w + rest) == [Bad(w)] + Scan(rest)
  {
    ClassifyWord(w);
    ScanBadThen(w, rest);
  }

  /** A text whose first item is an invalid piece is rejected quoting that piece. */
  lemma RejectBad(expression: string, w: string, tail: seq<Item>, sqrt: real -> real)
    requires Scan(expression) == [Bad(w)] + tail
    ensures ToPostfix(expression) == Failure(InvalidToken(w))
    ensures Evaluate(expression, sqrt) == Failure(InvalidToken(w))
  {
    var items := [Bad(w)] + tail;
    assert items[0] == Bad(w);
    RejectVia(expression, items, InvalidToken(w), sqrt);
  }

  /** `2x`, `1.` and `.5` are not numbers: only `\d+(\.\d+)?` is. */
  lemma NotNumbers(expression: string, sqrt: real -> real)
    requires expression == "2x" || expression == "1." || expression == ".5"
    ensures Evaluate(expression, sqrt) == Failure(InvalidToken(expression))
  {
    var w := expression;
    assert |w| == 2 && !IsDelimiter(w[0]) && !IsDelimiter(w[1]);
    assert IsRun(w);
    if w == "2x" {
      NotNumeral(w, 1);
    } else if w == "1." {
      assert DotIndex(w) == 1;
    } else {
      assert DotIndex(w) == 0;
    }
    assert w + [] == w;
    InvalidWordRejected(w, [], sqrt);
  }
}
