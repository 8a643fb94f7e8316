/**
 * The edge cases of the evaluator, stated on concrete inputs and on the
 * families of inputs they stand for: where each malformed expression is
 * rejected (by the converter or only by the stack machine) and with which
 * message, and the values of a few well-formed ones.
 */
module Quirks {
  import opened Wrappers
  import opened Syntax
  import opened Lexer
  import opened ShuntingYard
  import opened PostfixEvaluator
  import opened ExpressionTheory

  // ------------------------------------------------------------ scanning

  lemma ScanSpace()
    ensures Scan(" ") == [Blank]
  {
    assert IsPiece(" ");
    ScanPiece(" ");
  }

  lemma ScanNumeral(text: string)
    requires IsNumeral(text)
    ensures Scan(text) == [Tok(Num(text))]
  {
    ScanLexeme(Num(text));
  }

  lemma ScanOperator(o: BinOp)
    ensures Scan([Symbol(o)]) == [Tok(Op(o))]
  {
    ScanLexeme(Op(o));
  }

  /** Scanning a concatenation from the scans of its parts, at a delimiter seam. */
  lemma ScanExtend(x: string, y: string, sx: seq<Item>, sy: seq<Item>)
    requires Scan(x) == sx && Scan(y) == sy
    requires x == [] || y == [] || IsDelimiter(x[|x| - 1]) || IsDelimiter(y[0])
    ensures Scan(x + y) == sx + sy
  {
    ScanAppend(x, y);
  }

  /** One successful step of the conversion loop. */
  lemma RunPrepend(c: Converter, item: Item, rest: seq<Item>, c': Converter)
    requires Step(c, item) == Success(c')
    ensures Run(c, [item] + rest) == Run(c', rest)
  {
    assert ([item] + rest)[1..] == rest;
  }

  /** One successful step of the evaluation loop. */
  lemma EvalPrepend(st: seq<real>, w: string, rest: seq<string>, st': seq<real>, sqrt: real -> real)
    requires EvalWord(st, w, sqrt) == Success(st')
    ensures EvalWords(st, [w] + rest, sqrt) == EvalWords(st', rest, sqrt)
  {
    assert ([w] + rest)[1..] == rest;
  }

  /** Every piece of an input made of trimmable characters is skipped as blank. */
  lemma {:induction false} ScanBlank(s: string)
    requires forall i | 0 <= i < |s| :: IsTrimmable(s[i])
    ensures forall i | 0 <= i < |Scan(s)| :: Scan(s)[i] == Blank
    decreases |s|
  {
    if s != [] {
      var n := HeadLength(s);
      ScanHead(s);
      TrimmableBlank(s[..n]);
      ScanBlank(s[n..]);
    }
  }

  /** The first item of a scan is the first piece, trimmed and classified. */
  lemma ScanHead(s: string)
    requires s != []
    ensures Scan(s) == [Classify(Trim(s[..HeadLength(s)]))] + Scan(s[HeadLength(s)..])
  {
    TokenizeHead(s);
    var w, ws := s[..HeadLength(s)], Tokenize(s[HeadLength(s)..]);
    assert ([w] + ws)[1..] == ws;
  }

  lemma TrimmableBlank(w: string)
    requires forall i | 0 <= i < |w| :: IsTrimmable(w[i])
    ensures Classify(Trim(w)) == Blank
  {
  }

  /** Blank items leave the converter where it was. */
  lemma {:induction false} RunBlank(c: Converter, items: seq<Item>)
    requires forall i | 0 <= i < |items| :: items[i] == Blank
    ensures Run(c, items) == Success(c)
    decreases |items|
  {
    if items != [] {
      RunBlank(c, items[1..]);
    }
  }

  // ------------------------------------------------------- rejected early

  /**
   * An empty or blank expression never reaches the evaluator: the flag that
   * starts out set rejects it at the end of input.
   */
  lemma BlankRejected(s: string, sqrt: real -> real)
    requires forall i | 0 <= i < |s| :: IsTrimmable(s[i])
    ensures ToPostfix(s) == Failure(EndsWithOperator)
    ensures Evaluate(s, sqrt) == Failure(EndsWithOperator)
  {
    ScanBlank(s);
    RunBlank(Start, Scan(s));
  }

  /** A leading operator, minus included, is rejected: there is no unary minus. */
  lemma LeadingOperatorRejected(o: BinOp, rest: string, sqrt: real -> real)
    ensures ToPostfix([Symbol(o)] + rest) == Failure(ConsecutiveOperators)
    ensures Evaluate([Symbol(o)] + rest, sqrt) == Failure(ConsecutiveOperators)
  {
    ScanLeadingOperator(o, rest);
    RunLeadingOperator(o, Scan(rest));
  }

  lemma ScanLeadingOperator(o: BinOp, rest: string)
    ensures Scan([Symbol(o)] + rest) == [Tok(Op(o))] + Scan(rest)
  {
    ScanOperator(o);
    ScanAppend([Symbol(o)], rest);
  }

  lemma RunLeadingOperator(o: BinOp, tail: seq<Item>)
    ensures Run(Start, [Tok(Op(o))] + tail) == Failure(ConsecutiveOperators)
  {
    RunLeadingFails(Start, o, tail);
  }

  /** An operator right after an open parenthesis is rejected the same way. */
  lemma OperatorAfterOpenRejected(o: BinOp, rest: string, sqrt: real -> real)
    ensures ToPostfix("(" + [Symbol(o)] + rest) == Failure(ConsecutiveOperators)
    ensures Evaluate("(" + [Symbol(o)] + rest, sqrt) == Failure(ConsecutiveOperators)
  {
    ScanOpenOperator(o, rest);
    RunOpenOperator(o, Scan(rest));
  }

  lemma ScanOpenOperator(o: BinOp, rest: string)
    ensures Scan("(" + [Symbol(o)] + rest) == [Tok(LParen)] + ([Tok(Op(o))] + Scan(rest))
  {
    ScanLexeme(LParen);
    ScanLeadingOperator(o, rest);
    ScanExtend("(", [Symbol(o)] + rest, [Tok(LParen)], [Tok(Op(o))] + Scan(rest));
    Regroup3("(", [Symbol(o)], rest);
  }

  lemma RunOpenOperator(o: BinOp, tail: seq<Item>)
    ensures Run(Start, [Tok(LParen)] + ([Tok(Op(o))] + tail)) == Failure(ConsecutiveOperators)
  {
    var c1 := Converter([], [LParen], true);
    assert [LParen] + Start.stack == [LParen];
    assert Step(Start, Tok(LParen)) == Success(c1);
    RunPrepend(Start, Tok(LParen), [Tok(Op(o))] + tail, c1);
    RunLeadingFails(c1, o, tail);
  }

  /** An operator where an operand is expected stops the loop. */
  lemma RunLeadingFails(c: Converter, o: BinOp, tail: seq<Item>)
    requires c.expectOperand
    ensures Run(c, [Tok(Op(o))] + tail) == Failure(ConsecutiveOperators)
  {
    assert ([Tok(Op(o))] + tail)[0] == Tok(Op(o));
  }

  /** `-5` is rejected at its first character, and so is `(-5)` at its second. */
  lemma MinusFiveRejected(expression: string, sqrt: real -> real)
    requires expression == "-5"
    ensures Evaluate(expression, sqrt) == Failure(ConsecutiveOperators)
  {
    MinusFiveSpelling();
    LeadingOperatorRejected(Sub, "5", sqrt);
  }

  lemma BracketedMinusFiveRejected(expression: string, sqrt: real -> real)
    requires expression == "(-5)"
    ensures Evaluate(expression, sqrt) == Failure(ConsecutiveOperators)
  {
    BracketedMinusFiveSpelling();
    OperatorAfterOpenRejected(Sub, "5)", sqrt);
  }

  lemma BracketedMinusFiveSpelling()
    ensures "(-5)" == "(" + [Symbol(Sub)] + "5)"
  {
  }

  lemma MinusFiveSpelling()
    ensures "-5" == [Symbol(Sub)] + "5"
  {
  }
}
