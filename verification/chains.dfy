/**
 * Expressions without parentheses: numbers separated by operators and
 * single spaces. The converter resolves them by precedence, left to right
 * among equals, which is the same as evaluating the tree that puts the
 * higher-ranked operator lower.
 */
module Chains {
  import opened Wrappers
  import opened Syntax
  import opened Lexer
  import opened ShuntingYard
  import opened PostfixEvaluator
  import opened ExpressionTheory
  import opened Quirks

  /** ` o b`: an operator and a number, each after one space. */
  function TailText(o: BinOp, b: string): string {
    " " + ([Symbol(o)] + (" " + b))
  }

  /** `a o b`, with one space on each side of the operator. */
  function Spaced(a: string, o: BinOp, b: string): string {
    a + TailText(o, b)
  }

  /** `a o1 b o2 c`, spaced the same way. */
  function Spaced3(a: string, o1: BinOp, b: string, o2: BinOp, c: string): string {
    Spaced(a, o1, b) + TailText(o2, c)
  }

  /** The items of ` o b`: a blank, the operator, a blank, the number. */
  function Tail(o: BinOp, b: string): seq<Item> {
    [Blank, Tok(Op(o)), Blank, Tok(Num(b))]
  }

  lemma ScanSpaceThen(y: string, sy: seq<Item>)
    requires Scan(y) == sy
    ensures Scan(" " + y) == [Blank] + sy
  {
    ScanSpace();
    ScanExtend(" ", y, [Blank], sy);
  }

  lemma ScanTailText(o: BinOp, b: string)
    requires IsNumeral(b)
    ensures Scan(TailText(o, b)) == Tail(o, b)
  {
    ScanNumeral(b);
    ScanTailThen(o, b, [Tok(Num(b))]);
  }

  /** ` o y` scans as a blank, the operator and a blank before the items of `y`. */
  lemma ScanTailThen(o: BinOp, y: string, sy: seq<Item>)
    requires Scan(y) == sy
    ensures Scan(TailText(o, y)) == [Blank, Tok(Op(o)), Blank] + sy
  {
    ScanSpaceThen(y, sy);
    ScanOperatorThen(o, " " + y, [Blank] + sy);
    ScanSpaceThen([Symbol(o)] + (" " + y), [Tok(Op(o))] + ([Blank] + sy));
    Cons3(Blank, Tok(Op(o)), Blank, sy);
  }

  lemma Cons3<T>(a: T, b: T, c: T, s: seq<T>)
    ensures [a] + ([b] + ([c] + s)) == [a, b, c] + s
  {
  }

  lemma ScanOperatorThen(o: BinOp, y: string, sy: seq<Item>)
    requires Scan(y) == sy
    ensures Scan([Symbol(o)] + y) == [Tok(Op(o))] + sy
  {
    ScanOperator(o);
    ScanExtend([Symbol(o)], y, [Tok(Op(o))], sy);
  }

  lemma ScanTail(x: string, o: BinOp, b: string, sx: seq<Item>)
    requires IsNumeral(b) && Scan(x) == sx
    ensures Scan(x + TailText(o, b)) == sx + Tail(o, b)
  {
    ScanTailText(o, b);
    ScanExtend(x, TailText(o, b), sx, Tail(o, b));
  }

  /**
   * The converter over ` o b` from a state whose stack holds nothing that
   * ranks at least `o`: the operator is pushed and the number emitted.
   */
  lemma RunTailPush(c: Converter, o: BinOp, b: string)
    requires !c.expectOperand
    requires HigherPrefix(c.stack, Precedence(Op(o))) == 0
    ensures Run(c, Tail(o, b)) == Success(Converter(c.out + [Num(b)], [Op(o)] + c.stack, false))
  {
    var c1 := Converter(c.out, [Op(o)] + c.stack, true);
    var c2 := Converter(c.out + [Num(b)], [Op(o)] + c.stack, false);
    assert c.out + c.stack[..0] == c.out && c.stack[0..] == c.stack;
    assert Step(c, Tok(Op(o))) == Success(c1);
    RunPrepend(c, Blank, [Tok(Op(o)), Blank, Tok(Num(b))], c);
    RunPrepend(c, Tok(Op(o)), [Blank, Tok(Num(b))], c1);
    RunPrepend(c1, Blank, [Tok(Num(b))], c1);
    RunPrepend(c1, Tok(Num(b)), [], c2);
  }

  /**
   * The converter over ` o b` from a state whose top stack entry is an
   * operator ranking at least `o` and nothing below it does: that operator is
   * emitted first.
   */
  lemma RunTailPop(out: seq<Token>, top: BinOp, o: BinOp, b: string)
    requires Precedence(Op(top)) >= Precedence(Op(o))
    ensures Run(Converter(out, [Op(top)], false), Tail(o, b))
         == Success(Converter(out + [Op(top), Num(b)], [Op(o)], false))
  {
    var c := Converter(out, [Op(top)], false);
    var c1 := Converter(out + [Op(top)], [Op(o)], true);
    var c2 := Converter(out + [Op(top), Num(b)], [Op(o)], false);
    assert HigherPrefix(c.stack, Precedence(Op(o))) == 1;
    assert c.stack[..1] == [Op(top)] && c.stack[1..] == [];
    assert [Op(o)] + c.stack[1..] == [Op(o)];
    assert Step(c, Tok(Op(o))) == Success(c1);
    assert out + [Op(top)] + [Num(b)] == out + [Op(top), Num(b)];
    RunPrepend(c, Blank, [Tok(Op(o)), Blank, Tok(Num(b))], c);
    RunPrepend(c, Tok(Op(o)), [Blank, Tok(Num(b))], c1);
    RunPrepend(c1, Blank, [Tok(Num(b))], c1);
    RunPrepend(c1, Tok(Num(b)), [], c2);
  }

  lemma ScanSpaced(a: string, o: BinOp, b: string)
    requires IsNumeral(a) && IsNumeral(b)
    ensures Scan(Spaced(a, o, b)) == [Tok(Num(a))] + Tail(o, b)
  {
    ScanNumeral(a);
    ScanTail(a, o, b, [Tok(Num(a))]);
  }

  /** The converter over `a o b`. */
  lemma RunSpaced(a: string, o: BinOp, b: string)
    ensures Run(Start, [Tok(Num(a))] + Tail(o, b)) == Success(Converter([Num(a), Num(b)], [Op(o)], false))
  {
    var c1 := Converter([Num(a)], [], false);
    assert [] + [Num(a)] == [Num(a)];
    RunPrepend(Start, Tok(Num(a)), Tail(o, b), c1);
    assert HigherPrefix(c1.stack, Precedence(Op(o))) == 0;
    RunTailPush(c1, o, b);
    assert [Op(o)] + c1.stack == [Op(o)];
    assert c1.out + [Num(b)] == [Num(a), Num(b)];
  }

  /** `a o b` converts to `a b o`. */
  lemma ToPostfixSpaced(a: string, o: BinOp, b: string)
    requires IsNumeral(a) && IsNumeral(b)
    ensures ToPostfix(Spaced(a, o, b)) == Success([Num(a), Num(b), Op(o)])
  {
    ScanSpaced(a, o, b);
    RunSpaced(a, o, b);
    FinishSpaced(a, o, b);
  }

  lemma FinishSpaced(a: string, o: BinOp, b: string)
    ensures Finish(Converter([Num(a), Num(b)], [Op(o)], false)) == Success([Num(a), Num(b), Op(o)])
  {
    assert [Num(a), Num(b)] + [Op(o)] == [Num(a), Num(b), Op(o)];
  }

  /** `a o b` evaluates like the tree with `o` at the root. */
  lemma EvaluateSpaced(a: string, o: BinOp, b: string, sqrt: real -> real)
    requires IsNumeral(a) && IsNumeral(b)
    ensures ValidExpr(Binary(o, Literal(a), Literal(b)))
         && Evaluate(Spaced(a, o, b), sqrt) == Value(Binary(o, Literal(a), Literal(b)), sqrt)
  {
    ToPostfixSpaced(a, o, b);
    SpacedTree(a, o, b);
    EvaluateVia(Spaced(a, o, b), Binary(o, Literal(a), Literal(b)), sqrt);
  }

  lemma SpacedTree(a: string, o: BinOp, b: string)
    requires IsNumeral(a) && IsNumeral(b)
    ensures ValidExpr(Binary(o, Literal(a), Literal(b)))
    ensures PostOrder(Binary(o, Literal(a), Literal(b))) == [Num(a), Num(b), Op(o)]
  {
  }

  lemma ScanSpaced3(a: string, o1: BinOp, b: string, o2: BinOp, c: string)
    requires IsNumeral(a) && IsNumeral(b) && IsNumeral(c)
    ensures Scan(Spaced3(a, o1, b, o2, c)) == [Tok(Num(a))] + Tail(o1, b) + Tail(o2, c)
  {
    ScanSpaced(a, o1, b);
    ScanTail(Spaced(a, o1, b), o2, c, [Tok(Num(a))] + Tail(o1, b));
  }

  /** The converter over `a o1 b o2 c`, from where it stands after `a o1 b`. */
  lemma RunSpaced3(a: string, o1: BinOp, b: string, o2: BinOp, c: string)
    ensures Run(Start, [Tok(Num(a))] + Tail(o1, b) + Tail(o2, c))
         == Run(Converter([Num(a), Num(b)], [Op(o1)], false), Tail(o2, c))
  {
    RunSpaced(a, o1, b);
    RunAppend(Start, [Tok(Num(a))] + Tail(o1, b), Tail(o2, c));
  }

  /** When `o1` ranks at least `o2`, it is emitted before `c` is read. */
  lemma ToPostfixHigherFirst(a: string, o1: BinOp, b: string, o2: BinOp, c: string)
    requires IsNumeral(a) && IsNumeral(b) && IsNumeral(c)
    requires Precedence(Op(o1)) >= Precedence(Op(o2))
    ensures ToPostfix(Spaced3(a, o1, b, o2, c)) == Success([Num(a), Num(b), Op(o1), Num(c), Op(o2)])
  {
    ScanSpaced3(a, o1, b, o2, c);
    RunSpaced3(a, o1, b, o2, c);
    RunTailPop([Num(a), Num(b)], o1, o2, c);
    FinishHigherFirst(a, o1, b, o2, c);
  }

  lemma FinishHigherFirst(a: string, o1: BinOp, b: string, o2: BinOp, c: string)
    ensures Finish(Converter([Num(a), Num(b)] + [Op(o1), Num(c)], [Op(o2)], false))
         == Success([Num(a), Num(b), Op(o1), Num(c), Op(o2)])
  {
    assert [Num(a), Num(b)] + [Op(o1), Num(c)] + [Op(o2)] == [Num(a), Num(b), Op(o1), Num(c), Op(o2)];
  }

  /** When `o1` ranks below `o2`, `o2` is stacked on top of it and emitted first. */
  lemma ToPostfixLowerFirst(a: string, o1: BinOp, b: string, o2: BinOp, c: string)
    requires IsNumeral(a) && IsNumeral(b) && IsNumeral(c)
    requires Precedence(Op(o1)) < Precedence(Op(o2))
    ensures ToPostfix(Spaced3(a, o1, b, o2, c)) == Success([Num(a), Num(b), Num(c), Op(o2), Op(o1)])
  {
    var c2 := Converter([Num(a), Num(b)], [Op(o1)], false);
    ScanSpaced3(a, o1, b, o2, c);
    RunSpaced3(a, o1, b, o2, c);
    assert HigherPrefix(c2.stack, Precedence(Op(o2))) == 0;
    RunTailPush(c2, o2, c);
    FinishLowerFirst(a, o1, b, o2, c);
  }

  lemma FinishLowerFirst(a: string, o1: BinOp, b: string, o2: BinOp, c: string)
    ensures Finish(Converter([Num(a), Num(b)] + [Num(c)], [Op(o2)] + [Op(o1)], false))
         == Success([Num(a), Num(b), Num(c), Op(o2), Op(o1)])
  {
    assert [Num(a), Num(b)] + [Num(c)] + ([Op(o2)] + [Op(o1)]) == [Num(a), Num(b), Num(c), Op(o2), Op(o1)];
  }

  /**
   * `a o1 b o2 c` with `o1` ranking at least `o2` evaluates as `(a o1 b) o2 c`:
   * multiplication before addition, and left to right among equals.
   */
  lemma EvaluateHigherFirst(a: string, o1: BinOp, b: string, o2: BinOp, c: string, sqrt: real -> real)
    requires IsNumeral(a) && IsNumeral(b) && IsNumeral(c)
    requires Precedence(Op(o1)) >= Precedence(Op(o2))
    ensures ValidExpr(Binary(o2, Binary(o1, Literal(a), Literal(b)), Literal(c)))
    ensures Evaluate(Spaced3(a, o1, b, o2, c), sqrt)
         == Value(Binary(o2, Binary(o1, Literal(a), Literal(b)), Literal(c)), sqrt)
  {
    var e := Binary(o2, Binary(o1, Literal(a), Literal(b)), Literal(c));
    var s := Spaced3(a, o1, b, o2, c);
    ToPostfixHigherFirst(a, o1, b, o2, c);
    LeftTree(a, o1, b, o2, c);
    EvaluateVia(s, e, sqrt);
  }

  /** `a o1 b o2 c` with `o1` ranking below `o2` evaluates as `a o1 (b o2 c)`. */
  lemma EvaluateLowerFirst(a: string, o1: BinOp, b: string, o2: BinOp, c: string, sqrt: real -> real)
    requires IsNumeral(a) && IsNumeral(b) && IsNumeral(c)
    requires Precedence(Op(o1)) < Precedence(Op(o2))
    ensures ValidExpr(Binary(o1, Literal(a), Binary(o2, Literal(b), Literal(c))))
    ensures Evaluate(Spaced3(a, o1, b, o2, c), sqrt)
         == Value(Binary(o1, Literal(a), Binary(o2, Literal(b), Literal(c))), sqrt)
  {
    var e := Binary(o1, Literal(a), Binary(o2, Literal(b), Literal(c)));
    var s := Spaced3(a, o1, b, o2, c);
    ToPostfixLowerFirst(a, o1, b, o2, c);
    RightTree(a, o1, b, o2, c);
    EvaluateVia(s, e, sqrt);
  }

  lemma LeftTree(a: string, o1: BinOp, b: string, o2: BinOp, c: string)
    requires IsNumeral(a) && IsNumeral(b) && IsNumeral(c)
    ensures ValidExpr(Binary(o2, Binary(o1, Literal(a), Literal(b)), Literal(c)))
    ensures PostOrder(Binary(o2, Binary(o1, Literal(a), Literal(b)), Literal(c)))
         == [Num(a), Num(b), Op(o1), Num(c), Op(o2)]
  {
    assert PostOrder(Binary(o1, Literal(a), Literal(b))) == [Num(a), Num(b), Op(o1)];
  }

  lemma RightTree(a: string, o1: BinOp, b: string, o2: BinOp, c: string)
    requires IsNumeral(a) && IsNumeral(b) && IsNumeral(c)
    ensures ValidExpr(Binary(o1, Literal(a), Binary(o2, Literal(b), Literal(c))))
    ensures PostOrder(Binary(o1, Literal(a), Binary(o2, Literal(b), Literal(c))))
         == [Num(a), Num(b), Num(c), Op(o2), Op(o1)]
  {
    assert PostOrder(Binary(o2, Literal(b), Literal(c))) == [Num(b), Num(c), Op(o2)];
  }
}
