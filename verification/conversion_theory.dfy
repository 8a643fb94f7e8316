/**
 * Exactly which token sequences toPostfix accepts, stated without the
 * operator stack: every piece is a valid token, no operator stands where an
 * operand is expected (at the start, or after an operator, `(` or `sqrt`),
 * every `)` closes an open `(`, and the expression ends on an operand with
 * all parentheses closed.
 */
module ConversionTheory {
  import opened Wrappers
  import opened Syntax
  import opened Lexer
  import opened ShuntingYard

  /** After this prefix an operand is expected: at the start, or after an operator, `(` or `sqrt`. */
  predicate OperandExpected(prefix: seq<Token>) {
    prefix == [] || ExpectsOperandAfter(prefix[|prefix| - 1])
  }

  /** Open minus closed parentheses in a prefix. */
  function Depth(prefix: seq<Token>): int {
    if prefix == [] then 0
    else Depth(prefix[..|prefix| - 1]) + Nesting(prefix[|prefix| - 1])
  }

  /** No operator where an operand is expected and no `)` without an open `(`, at any position. */
  ghost predicate PrefixOk(toks: seq<Token>) {
    && (forall i | 0 <= i < |toks| :: toks[i].Op? ==> !OperandExpected(toks[..i]))
    && (forall i | 0 <= i < |toks| :: toks[i].RParen? ==> Depth(toks[..i]) > 0)
  }

  /** The token sequences toPostfix accepts. */
  ghost predicate Accepted(toks: seq<Token>) {
    PrefixOk(toks) && !OperandExpected(toks) && Depth(toks) == 0
  }

  predicate NoBad(items: seq<Item>) {
    forall i | 0 <= i < |items| :: !items[i].Bad?
  }

  /** The condition one more token must meet after a prefix. */
  predicate Admissible(prefix: seq<Token>, t: Token) {
    && (t.Op? ==> !OperandExpected(prefix))
    && (t.RParen? ==> Depth(prefix) > 0)
  }

  lemma PrefixOkExtend(p: seq<Token>, t: Token)
    ensures PrefixOk(p + [t]) <==> PrefixOk(p) && Admissible(p, t)
  {
    var q := p + [t];
    assert q[..|p|] == p;
    assert forall i | 0 <= i < |p| :: q[..i] == p[..i] && q[i] == p[i];
  }

  lemma PrefixOkShrink(p: seq<Token>, q: seq<Token>)
    requires PrefixOk(p + q)
    ensures PrefixOk(p)
  {
    var x := p + q;
    assert forall i | 0 <= i < |p| :: x[..i] == p[..i] && x[i] == p[i];
  }

  /** The stack-free view of a converter state after reading `prefix`. */
  ghost predicate Tracks(c: Converter, prefix: seq<Token>) {
    && Good(c)
    && c.expectOperand == OperandExpected(prefix)
    && OpenCount(c.stack) == Depth(prefix)
    && PrefixOk(prefix)
  }

  /**
   * The main loop succeeds exactly when no piece is invalid and the tokens
   * read so far together with the remaining ones stay admissible at every
   * position; the state it ends in tracks the whole token sequence.
   */
  lemma {:induction false} RunAccepts(c: Converter, prefix: seq<Token>, items: seq<Item>)
    requires Tracks(c, prefix)
    ensures Run(c, items).Success? <==> NoBad(items) && PrefixOk(prefix + TokensOf(items))
    ensures Run(c, items).Success? ==> Tracks(Run(c, items).value, prefix + TokensOf(items))
    decreases |items|
  {
    if items == [] {
      assert prefix + TokensOf(items) == prefix;
    } else {
      var item, rest := items[0], items[1..];
      TokensOfCons(items);
      assert NoBad(items) <==> !item.Bad? && NoBad(rest);
      match item
      case Blank =>
        RunAccepts(c, prefix, rest);
      case Bad(_) =>
      case Tok(t) =>
        var p' := prefix + [t];
        assert prefix + TokensOf(items) == p' + TokensOf(rest);
        PrefixOkExtend(prefix, t);
        OpenCountPositive(c.stack);
        if Step(c, item).Success? {
          var c' := Step(c, item).value;
          StepShape(c, t);
          StepGood(c, item);
          assert p'[..|prefix|] == prefix;
          assert Tracks(c', p');
          RunAccepts(c', p', rest);
        } else {
          assert !Admissible(prefix, t);
          if PrefixOk(p' + TokensOf(rest)) {
            PrefixOkShrink(p', TokensOf(rest));
          }
        }
    }
  }

  /**
   * toPostfix succeeds exactly on the inputs whose pieces are all valid tokens
   * and whose token sequence is accepted (both directions).
   */
  lemma ToPostfixAccepts(expression: string)
    ensures ToPostfix(expression).Success?
        <==> NoBad(Scan(expression)) && Accepted(TokensOf(Scan(expression)))
  {
    ToPostfixConverts(expression);
    ItemsAccepted(Scan(expression));
  }

  /** The main loop and the final drain both succeed on the items. */
  predicate Converts(items: seq<Item>) {
    Run(Start, items).Success? && Finish(Run(Start, items).value).Success?
  }

  lemma ToPostfixConverts(expression: string)
    ensures ToPostfix(expression).Success? <==> Converts(Scan(expression))
  {
  }

  /** The stack-free description of the items the loop and the drain accept. */
  lemma ItemsAccepted(items: seq<Item>)
    ensures Converts(items) <==> NoBad(items) && Accepted(TokensOf(items))
  {
    assert Tracks(Start, []);
    RunAccepts(Start, [], items);
    assert [] + TokensOf(items) == TokensOf(items);
    if Run(Start, items).Success? {
      var c := Run(Start, items).value;
      OpenCountPositive(c.stack);
    }
  }
}
