/**
 * End-to-end agreement of evaluate with a reference evaluator on arithmetic
 * trees: printing a tree with every operation in its own parentheses and
 * evaluating the text gives the value (or the division-by-zero error) that
 * direct recursive evaluation of the tree gives.
 */
module ExpressionTheory {
  import opened Wrappers
  import opened Syntax
  import opened Lexer
  import opened ShuntingYard
  import opened PostfixEvaluator

  /** An arithmetic expression as a tree: a numeral, a binary operation, or sqrt of an argument. */
  datatype Expr = Literal(text: string) | Binary(op: BinOp, left: Expr, right: Expr) | Root(arg: Expr)

  predicate ValidExpr(e: Expr) {
    match e
    case Literal(text) => IsNumeral(text)
    case Binary(_, l, r) => ValidExpr(l) && ValidExpr(r)
    case Root(a) => ValidExpr(a)
  }

  /**
   * The reference semantics: operands left to right, division by an exact
   * zero is an error, sqrt is the given function.
   */
  function Value(e: Expr, sqrt: real -> real): Result<real, ExprError>
    requires ValidExpr(e)
  {
    match e
    case Literal(text) => Success(NumeralValue(text))
    case Binary(o, l, r) => Combine(o, Value(l, sqrt), Value(r, sqrt))
    case Root(a) => RootOf(Value(a, sqrt), sqrt)
  }

  /** A binary operation on two evaluated operands; the left operand's error wins. */
  function Combine(o: BinOp, left: Result<real, ExprError>, right: Result<real, ExprError>): Result<real, ExprError> {
    var a :- left;
    var b :- right;
    if o == Div && b == 0.0 then Failure(DivisionByZero) else Success(Apply(o, a, b))
  }

  function RootOf(arg: Result<real, ExprError>, sqrt: real -> real): Result<real, ExprError> {
    var v :- arg;
    Success(sqrt(v))
  }

  /** The stack after a value is pushed on top of `st`, or the error that stopped it. */
  function Pushed(v: Result<real, ExprError>, st: seq<real>): Result<seq<real>, ExprError> {
    match v
    case Success(x) => Success([x] + st)
    case Failure(err) => Failure(err)
  }

  /** The tree in postfix order: operands first, then their operator. */
  function PostOrder(e: Expr): seq<Token> {
    match e
    case Literal(text) => [Num(text)]
    case Binary(o, l, r) => PostOrder(l) + PostOrder(r) + [Op(o)]
    case Root(a) => PostOrder(a) + [Sqrt]
  }

  /** The tree as text with every operation parenthesised: `(2+3)`, `sqrt(16)`. */
  function Parenthesized(e: Expr): string {
    match e
    case Literal(text) => text
    case Binary(o, l, r) => "(" + Parenthesized(l) + [Symbol(o)] + Parenthesized(r) + ")"
    case Root(a) => "sqrt" + "(" + Parenthesized(a) + ")"
  }

  /** The same text as classified tokens. */
  function Infix(e: Expr): seq<Item> {
    match e
    case Literal(text) => [Tok(Num(text))]
    case Binary(o, l, r) => [Tok(LParen)] + Infix(l) + [Tok(Op(o))] + Infix(r) + [Tok(RParen)]
    case Root(a) => [Tok(Sqrt), Tok(LParen)] + Infix(a) + [Tok(RParen)]
  }

  /** A delimiter character or the word `sqrt` scans as its own token. */
  lemma ScanLexeme(t: Token)
    requires WellFormed(t)
    ensures Scan(Lexeme(t)) == [Tok(t)]
  {
    LexemePiece(t);
    ScanPiece(Lexeme(t));
    ClassifyLexeme(t);
  }

  /** Every well-formed token is spelled as one tokenizer piece with nothing to trim. */
  lemma LexemePiece(t: Token)
    requires WellFormed(t)
    ensures IsPiece(Lexeme(t)) && Trim(Lexeme(t)) == Lexeme(t)
  {
    var w := Lexeme(t);
    if t.Num? {
      NumeralChars(w);
      assert forall i | 0 <= i < |w| :: !IsDelimiter(w[i]) && !IsTrimmable(w[i]);
    } else if t.Sqrt? {
      assert w == "sqrt";
      assert IsRun(w);
    } else {
      assert |w| == 1 && IsDelimiter(w[0]) && !IsTrimmable(w[0]);
    }
  }

  /** The printed text scans back into the tree's token sequence. */
  lemma {:induction false} ScanParenthesized(e: Expr)
    requires ValidExpr(e)
    ensures Scan(Parenthesized(e)) == Infix(e)
  {
    match e
    case Literal(text) =>
      ScanLexeme(Num(text));
    case Binary(o, l, r) =>
      ScanParenthesized(l);
      ScanParenthesized(r);
      ScanBinary(o, Parenthesized(l), Parenthesized(r));
    case Root(a) =>
      ScanParenthesized(a);
      ScanRoot(Parenthesized(a));
  }

  lemma ScanBinary(o: BinOp, pl: string, pr: string)
    ensures Scan("(" + pl + [Symbol(o)] + pr + ")")
         == [Tok(LParen)] + Scan(pl) + [Tok(Op(o))] + Scan(pr) + [Tok(RParen)]
  {
    ScanLexeme(LParen);
    ScanLexeme(RParen);
    ScanLexeme(Op(o));
    ScanAppend("(", pl);
    ScanAppend("(" + pl, [Symbol(o)]);
    ScanAppend("(" + pl + [Symbol(o)], pr);
    ScanAppend("(" + pl + [Symbol(o)] + pr, ")");
  }

  lemma ScanRoot(pa: string)
    ensures Scan("sqrt" + "(" + pa + ")") == [Tok(Sqrt), Tok(LParen)] + Scan(pa) + [Tok(RParen)]
  {
    var s3 := "sqrt" + "(";
    ScanOpenRoot();
    ScanAppend(s3, pa);
    ScanLexeme(RParen);
    ScanAppend(s3 + pa, ")");
  }

  lemma ScanOpenRoot()
    ensures Scan("sqrt" + "(") == [Tok(Sqrt), Tok(LParen)]
  {
    ScanLexeme(Sqrt);
    ScanLexeme(LParen);
    ScanAppend("sqrt", "(");
  }

  /** Running the loop over a concatenation runs the second part from where the first stopped. */
  lemma {:induction false} RunAppend(c: Converter, a: seq<Item>, b: seq<Item>)
    ensures Run(c, a + b)
         == (match Run(c, a)
             case Success(d) => Run(d, b)
             case Failure(err) => Failure(err))
    decreases |a|
  {
    if a == [] {
      assert a + b == b;
    } else {
      assert (a + b)[0] == a[0];
      assert (a + b)[1..] == a[1..] + b;
      if Step(c, a[0]).Success? {
        RunAppend(Step(c, a[0]).value, a[1..], b);
      }
    }
  }

  lemma RunSingle(c: Converter, item: Item)
    ensures Run(c, [item]) == Step(c, item)
  {
    assert [item][1..] == [];
  }

  /** Two successful runs compose into one. */
  lemma RunChain(c: Converter, a: seq<Item>, d: Converter, b: seq<Item>, e: Converter)
    requires Run(c, a) == Success(d) && Run(d, b) == Success(e)
    ensures Run(c, a + b) == Success(e)
  {
    RunAppend(c, a, b);
  }

  /**
   * The converter turns a parenthesised tree into its postfix order, leaving
   * the stack as it found it, provided it does not find sqrt on top (which a
   * closing parenthesis of the tree would otherwise pop).
   */
  lemma {:induction false} RunInfix(e: Expr, c: Converter)
    requires ValidExpr(e)
    requires c.stack == [] || c.stack[0] != Sqrt
    ensures Run(c, Infix(e)) == Success(Converter(c.out + PostOrder(e), c.stack, false))
  {
    match e
    case Literal(text) =>
      assert Infix(e) == [Tok(Num(text))] + [];
    case Binary(o, l, r) =>
      RunInfix(l, Converter(c.out, [LParen] + c.stack, true));
      RunInfix(r, Converter(c.out + PostOrder(l), [Op(o), LParen] + c.stack, true));
      RunBinary(o, Infix(l), PostOrder(l), Infix(r), PostOrder(r), c);
    case Root(a) =>
      RunInfix(a, Converter(c.out, [LParen, Sqrt] + c.stack, true));
      RunRoot(Infix(a), PostOrder(a), c);
  }

  /** A bracketed binary group, with the two operands' runs given. */
  lemma RunBinary(o: BinOp, il: seq<Item>, pl: seq<Token>, ir: seq<Item>, pr: seq<Token>, c: Converter)
    requires c.stack == [] || c.stack[0] != Sqrt
    requires Run(Converter(c.out, [LParen] + c.stack, true), il)
          == Success(Converter(c.out + pl, [LParen] + c.stack, false))
    requires Run(Converter(c.out + pl, [Op(o), LParen] + c.stack, true), ir)
          == Success(Converter(c.out + pl + pr, [Op(o), LParen] + c.stack, false))
    ensures Run(c, [Tok(LParen)] + il + [Tok(Op(o))] + ir + [Tok(RParen)])
         == Success(Converter(c.out + (pl + pr + [Op(o)]), c.stack, false))
  {
    var left := [Tok(LParen)] + il + [Tok(Op(o))];
    var right := ir + [Tok(RParen)];
    var c3 := Converter(c.out + pl, [Op(o), LParen] + c.stack, true);
    var c5 := Converter(c.out + (pl + pr + [Op(o)]), c.stack, false);
    BinaryLeft(o, il, pl, c);
    BinaryRight(o, ir, c.out + pl, pr, c.stack);
    Regroup(c.out, pl, pr, [Op(o)]);
    RunChain(c, left, c3, right, c5);
    Regroup5([Tok(LParen)], il, [Tok(Op(o))], ir, [Tok(RParen)]);
  }

  lemma Regroup<T>(a: seq<T>, b: seq<T>, c: seq<T>, d: seq<T>)
    ensures a + b + c + d == a + (b + c + d)
  {
  }

  lemma Regroup5<T>(a: seq<T>, b: seq<T>, c: seq<T>, d: seq<T>, e: seq<T>)
    ensures (a + b + c) + (d + e) == a + b + c + d + e
  {
  }

  /** The open parenthesis, the left operand and the operator of a binary group. */
  lemma BinaryLeft(o: BinOp, il: seq<Item>, pl: seq<Token>, c: Converter)
    requires Run(Converter(c.out, [LParen] + c.stack, true), il)
          == Success(Converter(c.out + pl, [LParen] + c.stack, false))
    ensures Run(c, [Tok(LParen)] + il + [Tok(Op(o))])
         == Success(Converter(c.out + pl, [Op(o), LParen] + c.stack, true))
  {
    var c1 := Converter(c.out, [LParen] + c.stack, true);
    var c2 := Converter(c.out + pl, [LParen] + c.stack, false);
    RunOpen(c);
    RunChain(c, [Tok(LParen)], c1, il, c2);
    RunPushOperator(o, c2.out, c.stack);
    RunChain(c, [Tok(LParen)] + il, c2, [Tok(Op(o))], Converter(c.out + pl, [Op(o), LParen] + c.stack, true));
  }

  /** The right operand and the closing parenthesis of a binary group. */
  lemma BinaryRight(o: BinOp, ir: seq<Item>, out: seq<Token>, pr: seq<Token>, st: seq<Token>)
    requires st == [] || st[0] != Sqrt
    requires Run(Converter(out, [Op(o), LParen] + st, true), ir)
          == Success(Converter(out + pr, [Op(o), LParen] + st, false))
    ensures Run(Converter(out, [Op(o), LParen] + st, true), ir + [Tok(RParen)])
         == Success(Converter(out + pr + [Op(o)], st, false))
  {
    RunCloseBinary(o, out + pr, st);
    RunChain(Converter(out, [Op(o), LParen] + st, true), ir, Converter(out + pr, [Op(o), LParen] + st, false),
             [Tok(RParen)], Converter(out + pr + [Op(o)], st, false));
  }

  lemma RunOpen(c: Converter)
    ensures Run(c, [Tok(LParen)]) == Success(Converter(c.out, [LParen] + c.stack, true))
  {
    RunSingle(c, Tok(LParen));
  }

  lemma RunPushOperator(o: BinOp, out: seq<Token>, st: seq<Token>)
    ensures Run(Converter(out, [LParen] + st, false), [Tok(Op(o))])
         == Success(Converter(out, [Op(o), LParen] + st, true))
  {
    PushOperator(o, out, st);
    RunSingle(Converter(out, [LParen] + st, false), Tok(Op(o)));
  }

  lemma RunCloseBinary(o: BinOp, out: seq<Token>, st: seq<Token>)
    requires st == [] || st[0] != Sqrt
    ensures Run(Converter(out, [Op(o), LParen] + st, false), [Tok(RParen)])
         == Success(Converter(out + [Op(o)], st, false))
  {
    CloseBinary(o, out, st);
    RunSingle(Converter(out, [Op(o), LParen] + st, false), Tok(RParen));
  }

  /** A sqrt group, with the argument's run given. */
  lemma RunRoot(ia: seq<Item>, pa: seq<Token>, c: Converter)
    requires Run(Converter(c.out, [LParen, Sqrt] + c.stack, true), ia)
          == Success(Converter(c.out + pa, [LParen, Sqrt] + c.stack, false))
    ensures Run(c, [Tok(Sqrt), Tok(LParen)] + ia + [Tok(RParen)])
         == Success(Converter(c.out + (pa + [Sqrt]), c.stack, false))
  {
    var c1 := Converter(c.out, [LParen, Sqrt] + c.stack, true);
    var c3 := Converter(c.out + (pa + [Sqrt]), c.stack, false);
    OpenRoot(c);
    RootRight(ia, c.out, pa, c.stack);
    Regroup3(c.out, pa, [Sqrt]);
    RunChain(c, [Tok(Sqrt), Tok(LParen)], c1, ia + [Tok(RParen)], c3);
    Regroup3([Tok(Sqrt), Tok(LParen)], ia, [Tok(RParen)]);
  }

  /** The argument and the closing parenthesis of a sqrt group. */
  lemma RootRight(ia: seq<Item>, out: seq<Token>, pa: seq<Token>, st: seq<Token>)
    requires Run(Converter(out, [LParen, Sqrt] + st, true), ia)
          == Success(Converter(out + pa, [LParen, Sqrt] + st, false))
    ensures Run(Converter(out, [LParen, Sqrt] + st, true), ia + [Tok(RParen)])
         == Success(Converter(out + pa + [Sqrt], st, false))
  {
    RunCloseRoot(out + pa, st);
    RunChain(Converter(out, [LParen, Sqrt] + st, true), ia, Converter(out + pa, [LParen, Sqrt] + st, false),
             [Tok(RParen)], Converter(out + pa + [Sqrt], st, false));
  }

  /** `sqrt(` pushes the sqrt and then the open parenthesis. */
  lemma OpenRoot(c: Converter)
    ensures Run(c, [Tok(Sqrt), Tok(LParen)]) == Success(Converter(c.out, [LParen, Sqrt] + c.stack, true))
  {
    var c0 := Converter(c.out, [Sqrt] + c.stack, true);
    RunPushRoot(c);
    RunOpen(c0);
    assert [LParen] + c0.stack == [LParen, Sqrt] + c.stack;
    RunChain(c, [Tok(Sqrt)], c0, [Tok(LParen)], Converter(c.out, [LParen, Sqrt] + c.stack, true));
    assert [Tok(Sqrt)] + [Tok(LParen)] == [Tok(Sqrt), Tok(LParen)];
  }

  lemma RunPushRoot(c: Converter)
    ensures Run(c, [Tok(Sqrt)]) == Success(Converter(c.out, [Sqrt] + c.stack, true))
  {
    RunSingle(c, Tok(Sqrt));
  }

  lemma RunCloseRoot(out: seq<Token>, st: seq<Token>)
    ensures Run(Converter(out, [LParen, Sqrt] + st, false), [Tok(RParen)])
         == Success(Converter(out + [Sqrt], st, false))
  {
    CloseRoot(out, st);
    RunSingle(Converter(out, [LParen, Sqrt] + st, false), Tok(RParen));
  }

  /** An operator right after an open parenthesis pops nothing. */
  lemma PushOperator(o: BinOp, out: seq<Token>, st: seq<Token>)
    ensures Step(Converter(out, [LParen] + st, false), Tok(Op(o)))
         == Success(Converter(out, [Op(o), LParen] + st, true))
  {
    var c := Converter(out, [LParen] + st, false);
    assert HigherPrefix(c.stack, Precedence(Op(o))) == 0;
    assert out + c.stack[..0] == out;
    assert c.stack[0..] == c.stack;
    assert [Op(o)] + c.stack == [Op(o), LParen] + st;
  }

  /** Closing a binary group pops its operator and its open parenthesis. */
  lemma CloseBinary(o: BinOp, out: seq<Token>, st: seq<Token>)
    requires st == [] || st[0] != Sqrt
    ensures Step(Converter(out, [Op(o), LParen] + st, false), Tok(RParen))
         == Success(Converter(out + [Op(o)], st, false))
  {
    var c := Converter(out, [Op(o), LParen] + st, false);
    assert OpenPrefix(c.stack) == 1;
    assert c.stack[..1] == [Op(o)];
    assert c.stack[1..][1..] == st;
  }

  /** Closing the group of a sqrt pops the open parenthesis and then the sqrt. */
  lemma CloseRoot(out: seq<Token>, st: seq<Token>)
    ensures Step(Converter(out, [LParen, Sqrt] + st, false), Tok(RParen))
         == Success(Converter(out + [Sqrt], st, false))
  {
    var c := Converter(out, [LParen, Sqrt] + st, false);
    assert OpenPrefix(c.stack) == 0;
    assert out + c.stack[..0] == out;
    assert c.stack[0..] == c.stack;
    assert c.stack[1..] == [Sqrt] + st;
    assert c.stack[1..][1..] == st;
  }

  lemma PostOrderWellFormed(e: Expr)
    requires ValidExpr(e)
    ensures AllWellFormed(PostOrder(e)) && PostOrder(e) != []
  {
  }

  /**
   * The stack machine applied to a tree's postfix order pushes the tree's
   * reference value, or stops with the reference's error.
   */
  lemma {:induction false} EvalPostOrder(e: Expr, st: seq<real>, sqrt: real -> real)
    requires ValidExpr(e)
    ensures EvalWords(st, Lexemes(PostOrder(e)), sqrt)
         == Pushed(Value(e, sqrt), st)
  {
    match e
    case Literal(text) =>
      EvalLiteral(text, st, sqrt);
    case Binary(o, l, r) =>
      EvalPostOrder(l, st, sqrt);
      if Value(l, sqrt).Success? {
        EvalPostOrder(r, [Value(l, sqrt).value] + st, sqrt);
      }
      BinaryWords(o, l, r);
      EvalBinary(o, Lexemes(PostOrder(l)), Value(l, sqrt), Lexemes(PostOrder(r)), Value(r, sqrt), st, sqrt);
    case Root(a) =>
      EvalPostOrder(a, st, sqrt);
      RootWords(a);
      EvalRoot(Lexemes(PostOrder(a)), Value(a, sqrt), st, sqrt);
  }

  /** A binary operation's postfix words, with the two operands' runs given. */
  lemma EvalBinary(o: BinOp, wl: seq<string>, left: Result<real, ExprError>,
                   wr: seq<string>, right: Result<real, ExprError>, st: seq<real>, sqrt: real -> real)
    requires EvalWords(st, wl, sqrt) == Pushed(left, st)
    requires left.Success? ==> EvalWords([left.value] + st, wr, sqrt) == Pushed(right, [left.value] + st)
    ensures EvalWords(st, wl + wr + [[Symbol(o)]], sqrt) == Pushed(Combine(o, left, right), st)
  {
    EvalWordsAppend(st, wl + wr, [[Symbol(o)]], sqrt);
    EvalWordsAppend(st, wl, wr, sqrt);
    if left.Success? && right.Success? {
      EvalOperator(o, left.value, right.value, st, sqrt);
    }
  }

  /** An operator word pops the right operand, then the left, and pushes the result. */
  lemma EvalOperator(o: BinOp, a: real, b: real, st: seq<real>, sqrt: real -> real)
    ensures EvalWords([b] + ([a] + st), [[Symbol(o)]], sqrt) == Pushed(Combine(o, Success(a), Success(b)), st)
  {
    var w := [Symbol(o)];
    assert !IsNumeral(w) by {
      NotNumeral(w, 0);
    }
    assert OperatorOf(w) == Some(o);
    assert [w][1..] == [];
    assert ([b] + ([a] + st))[2..] == st;
  }

  /** The sqrt word, with the argument's run given. */
  lemma EvalRoot(wa: seq<string>, arg: Result<real, ExprError>, st: seq<real>, sqrt: real -> real)
    requires EvalWords(st, wa, sqrt) == Pushed(arg, st)
    ensures EvalWords(st, wa + ["sqrt"], sqrt) == Pushed(RootOf(arg, sqrt), st)
  {
    EvalWordsAppend(st, wa, ["sqrt"], sqrt);
    if arg.Success? {
      var v := arg.value;
      assert !IsNumeral("sqrt") by {
        NotNumeral("sqrt", 0);
      }
      assert ["sqrt"][1..] == [];
      assert ([v] + st)[1..] == st;
    }
  }

  lemma EvalLiteral(text: string, st: seq<real>, sqrt: real -> real)
    requires IsNumeral(text)
    ensures EvalWords(st, Lexemes(PostOrder(Literal(text))), sqrt) == Pushed(Value(Literal(text), sqrt), st)
  {
    assert Lexemes(PostOrder(Literal(text))) == [text];
    assert [text][1..] == [];
  }

  lemma BinaryWords(o: BinOp, l: Expr, r: Expr)
    ensures Lexemes(PostOrder(Binary(o, l, r))) == Lexemes(PostOrder(l)) + Lexemes(PostOrder(r)) + [[Symbol(o)]]
  {
    LexemesAppend(PostOrder(l) + PostOrder(r), [Op(o)]);
    LexemesAppend(PostOrder(l), PostOrder(r));
  }

  lemma RootWords(a: Expr)
    ensures Lexemes(PostOrder(Root(a))) == Lexemes(PostOrder(a)) + ["sqrt"]
  {
    LexemesAppend(PostOrder(a), [Sqrt]);
  }

  lemma LexemesAppend(a: seq<Token>, b: seq<Token>)
    ensures Lexemes(a + b) == Lexemes(a) + Lexemes(b)
  {
  }

  /** toPostfix turns a fully parenthesised expression into the tree's postfix order. */
  lemma ToPostfixParenthesized(e: Expr)
    requires ValidExpr(e)
    ensures ToPostfix(Parenthesized(e)) == Success(PostOrder(e))
  {
    ScanParenthesized(e);
    RunInfix(e, Start);
    var p := PostOrder(e);
    assert Start.out + p == p;
    ConvertVia(Parenthesized(e), Infix(e), Converter(p, [], false));
    assert p + [] == p;
    assert Finish(Converter(p, [], false)) == Success(p);
  }

  /**
   * evaluate agrees with the reference evaluator on every parenthesised
   * expression: same value, or the same division-by-zero error.
   */
  lemma EvaluateParenthesized(e: Expr, sqrt: real -> real)
    requires ValidExpr(e)
    ensures Evaluate(Parenthesized(e), sqrt) == Value(e, sqrt)
  {
    ToPostfixParenthesized(e);
    EvaluateVia(Parenthesized(e), e, sqrt);
  }

  /** Any text that converts into a tree's postfix order evaluates to the tree's reference value. */
  lemma EvaluateVia(expression: string, e: Expr, sqrt: real -> real)
    requires ValidExpr(e)
    requires ToPostfix(expression) == Success(PostOrder(e))
    ensures Evaluate(expression, sqrt) == Value(e, sqrt)
  {
    var p := PostOrder(e);
    PostOrderWellFormed(e);
    SplitRender(p);
    EvalPostOrder(e, [], sqrt);
  }
}
