/**
 * evaluate: the postfix tokens are written into a string (each followed by
 * one space), the string is split again with `split("\\s")`, and a stack
 * machine folds the pieces into one value.
 *
 * Values are real numbers; sqrt is a parameter because Math.sqrt on doubles
 * is not modelled.
 */
module PostfixEvaluator {
  import opened Wrappers
  import opened Syntax
  import opened ShuntingYard

  /** The postfix string toPostfix builds: every token followed by one space. */
  function Render(p: seq<Token>): string {
    if p == [] then [] else Lexeme(p[0]) + " " + Render(p[1..])
  }

  function Lexemes(p: seq<Token>): (ws: seq<string>)
    ensures |ws| == |p|
    ensures forall i | 0 <= i < |p| :: ws[i] == Lexeme(p[i])
  {
    if p == [] then [] else [Lexeme(p[0])] + Lexemes(p[1..])
  }

  /** The characters the regular expression `\s` matches. */
  predicate IsSpace(c: char) {
    c == ' ' || c == '\t' || c == '\n' || c == '\U{000B}' || c == '\U{000C}' || c == '\r'
  }

  predicate NoSpace(w: string) {
    forall k | 0 <= k < |w| :: !IsSpace(w[k])
  }

  /**
   * The pieces between whitespace characters: one more piece than there are
   * whitespace characters, none of them containing whitespace.
   */
  function Fields(s: string): (fs: seq<string>)
    ensures |fs| >= 1
    ensures forall i | 0 <= i < |fs| :: NoSpace(fs[i])
  {
    if s == [] then [[]]
    else
      var rest := Fields(s[1..]);
      if IsSpace(s[0]) then [[]] + rest
      else [[s[0]] + rest[0]] + rest[1..]
  }

  /** Drop the empty pieces at the end, as String.split with limit 0 does. */
  function DropTrailingEmpty(fs: seq<string>): (r: seq<string>)
    ensures |r| <= |fs| && r == fs[..|r|]
    ensures r == [] || r[|r| - 1] != []
    ensures forall i | |r| <= i < |fs| :: fs[i] == []
  {
    if fs == [] then []
    else if fs[|fs| - 1] == [] then DropTrailingEmpty(fs[..|fs| - 1])
    else fs
  }

  /** String.split("\\s"); an empty string splits into one empty piece. */
  function Split(s: string): seq<string> {
    if s == [] then [[]] else DropTrailingEmpty(Fields(s))
  }

  /** The binary operator a piece names, if it is one of plus, minus, star or slash. */
  function OperatorOf(w: string): Option<BinOp> {
    if w == "+" then Some(Add)
    else if w == "-" then Some(Sub)
    else if w == "*" then Some(Mul)
    else if w == "/" then Some(Div)
    else None
  }

  function Apply(o: BinOp, a: real, b: real): real
    requires o == Div ==> b != 0.0
  {
    match o
    case Add => a + b
    case Sub => a - b
    case Mul => a * b
    case Div => a / b
  }

  /**
   * One iteration of the evaluation loop (stack top at index 0). A number
   * pushes one value, a binary operator replaces its two operands by one, and
   * sqrt replaces one; everything below the operands is left alone.
   */
  function EvalWord(st: seq<real>, w: string, sqrt: real -> real): (r: Result<seq<real>, ExprError>)
    ensures IsNumeral(w) ==> r.Success? && |r.value| == |st| + 1 && r.value[1..] == st
    ensures IsNumeral(w) ==> r.value[0] == NumeralValue(w)
    ensures OperatorOf(w).Some? && |st| >= 2 && !(OperatorOf(w) == Some(Div) && st[0] == 0.0) ==>
      r == Success([Apply(OperatorOf(w).value, st[1], st[0])] + st[2..])
    ensures OperatorOf(w).Some? && |st| < 2 ==> r == Failure(InsufficientValues(w))
    ensures OperatorOf(w).Some? && |st| >= 2 && r.Success? ==> |r.value| == |st| - 1 && r.value[1..] == st[2..]
    ensures OperatorOf(w) == Some(Div) && |st| >= 2 ==> (r == Failure(DivisionByZero) <==> st[0] == 0.0)
    ensures w == "sqrt" ==> (r.Failure? <==> st == [])
    ensures w == "sqrt" && st != [] ==> r == Success([sqrt(st[0])] + st[1..])
    ensures w == "sqrt" && st == [] ==> r == Failure(NoValueForSqrt)
    ensures !IsNumeral(w) && OperatorOf(w).None? && w != "sqrt" ==> r == Failure(InvalidPostfixToken(w))
  {
    if IsNumeral(w) then Success([NumeralValue(w)] + st)
    else if OperatorOf(w).Some? then
      var o := OperatorOf(w).value;
      if |st| < 2 then Failure(InsufficientValues(w))
      else
        var b, a := st[0], st[1];
        if o == Div && b == 0.0 then Failure(DivisionByZero)
        else Success([Apply(o, a, b)] + st[2..])
    else if w == "sqrt" then
      if st == [] then Failure(NoValueForSqrt)
      else Success([sqrt(st[0])] + st[1..])
    else Failure(InvalidPostfixToken(w))
  }

  /** The evaluation loop over all pieces; the first failure stops it. */
  function EvalWords(st: seq<real>, ws: seq<string>, sqrt: real -> real): Result<seq<real>, ExprError>
    decreases |ws|
  {
    if ws == [] then Success(st)
    else
      var st' :- EvalWord(st, ws[0], sqrt);
      EvalWords(st', ws[1..], sqrt)
  }

  /** The loop from an empty stack, then the check that exactly one value is left. */
  function EvalPostfix(ws: seq<string>, sqrt: real -> real): (r: Result<real, ExprError>)
    ensures EvalWords([], ws, sqrt).Failure? ==> r == Failure(EvalWords([], ws, sqrt).error)
    ensures EvalWords([], ws, sqrt).Success? ==>
      (r.Success? <==> |EvalWords([], ws, sqrt).value| == 1)
    ensures EvalWords([], ws, sqrt).Success? && r.Failure? ==> r.error == TooManyValues
    ensures r.Success? ==> EvalWords([], ws, sqrt) == Success([r.value])
  {
    var st :- EvalWords([], ws, sqrt);
    if |st| != 1 then Failure(TooManyValues)
    else
      assert st == [st[0]];
      Success(st[0])
  }

  /** ExpressionEvaluator.evaluate: convert, render, split and evaluate. */
  function Evaluate(expression: string, sqrt: real -> real): (r: Result<real, ExprError>)
    ensures ToPostfix(expression).Failure? ==> r == Failure(ToPostfix(expression).error)
  {
    var p :- ToPostfix(expression);
    EvalPostfix(Split(Render(p)), sqrt)
  }

  /** A token's spelling is a non-empty word without whitespace. */
  lemma LexemeIsWord(t: Token)
    requires WellFormed(t)
    ensures Lexeme(t) != [] && NoSpace(Lexeme(t))
  {
    if t.Num? {
      NumeralChars(t.text);
    }
  }

  lemma {:induction false} FieldsWord(w: string, rest: string)
    requires NoSpace(w)
    ensures Fields(w + " " + rest) == [w] + Fields(rest)
    decreases |w|
  {
    var s := w + " " + rest;
    if w == [] {
      assert s == " " + rest;
      assert s[1..] == rest;
    } else {
      assert s[0] == w[0];
      assert s[1..] == w[1..] + " " + rest;
      FieldsWord(w[1..], rest);
      assert [w[0]] + w[1..] == w;
    }
  }

  lemma {:induction false} FieldsRender(p: seq<Token>)
    requires AllWellFormed(p)
    ensures Fields(Render(p)) == Lexemes(p) + [[]]
  {
    if p != [] {
      LexemeIsWord(p[0]);
      FieldsWord(Lexeme(p[0]), Render(p[1..]));
      FieldsRender(p[1..]);
    }
  }

  /**
   * Writing the postfix tokens out and splitting the string again gives back
   * their spellings, except that an empty postfix splits into one empty piece.
   */
  lemma SplitRender(p: seq<Token>)
    requires AllWellFormed(p)
    ensures p == [] ==> Split(Render(p)) == [[]]
    ensures p != [] ==> Split(Render(p)) == Lexemes(p)
  {
    if p != [] {
      FieldsRender(p);
      LexemeIsWord(p[0]);
      LexemeIsWord(p[|p| - 1]);
      var fs := Lexemes(p) + [[]];
      assert Render(p) != [];
      var r := DropTrailingEmpty(fs);
      assert r == DropTrailingEmpty(fs[..|fs| - 1]);
      assert fs[..|fs| - 1] == Lexemes(p);
    }
  }

  /** Evaluating a concatenation runs the second part on the stack the first part leaves. */
  lemma {:induction false} EvalWordsAppend(st: seq<real>, a: seq<string>, b: seq<string>, sqrt: real -> real)
    ensures EvalWords(st, a + b, sqrt)
         == (match EvalWords(st, a, sqrt)
             case Success(st') => EvalWords(st', b, sqrt)
             case Failure(e) => Failure(e))
    decreases |a|
  {
    if a == [] {
      assert a + b == b;
    } else {
      assert (a + b)[0] == a[0];
      assert (a + b)[1..] == a[1..] + b;
      if EvalWord(st, a[0], sqrt).Success? {
        EvalWordsAppend(EvalWord(st, a[0], sqrt).value, a[1..], b, sqrt);
      }
    }
  }
}
