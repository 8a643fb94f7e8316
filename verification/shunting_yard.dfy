/**
 * toPostfix: Dijkstra's shunting-yard conversion of the scanned items into
 * postfix order, with the lastTokenWasOperator flag that rejects an operator
 * where an operand is expected.
 *
 * The operator stack is a sequence whose top is at index 0, so a push is
 * `[t] + stack`, the operators popped by one loop are a prefix of the stack,
 * and draining the stack at the end appends it in order.
 */
module ShuntingYard {
  import opened Wrappers
  import opened Syntax
  import opened Lexer

  /**
   * The state of the conversion loop: the postfix output so far, the operator
   * stack, and the lastTokenWasOperator flag (true when an operand is expected).
   */
  datatype Converter = Converter(out: seq<Token>, stack: seq<Token>, expectOperand: bool)

  /** The flag starts true, so an operator cannot open the expression. */
  const Start := Converter([], [], true)

  predicate IsParen(t: Token) {
    t.LParen? || t.RParen?
  }

  /** Tokens the conversion keeps: everything except parentheses. */
  function Strip(ts: seq<Token>): (r: seq<Token>)
    ensures forall i | 0 <= i < |r| :: !IsParen(r[i])
  {
    if ts == [] then []
    else if IsParen(ts[0]) then Strip(ts[1..])
    else [ts[0]] + Strip(ts[1..])
  }

  /** The number tokens of a sequence, in order. */
  function Numbers(ts: seq<Token>): seq<Token> {
    if ts == [] then []
    else if ts[0].Num? then [ts[0]] + Numbers(ts[1..])
    else Numbers(ts[1..])
  }

  /** How many open parentheses a sequence holds. */
  function OpenCount(ts: seq<Token>): nat {
    if ts == [] then 0
    else (if ts[0].LParen? then 1 else 0) + OpenCount(ts[1..])
  }

  /** The tokens among the scanned items (blanks and invalid pieces dropped). */
  function TokensOf(items: seq<Item>): seq<Token> {
    if items == [] then []
    else if items[0].Tok? then [items[0].token] + TokensOf(items[1..])
    else TokensOf(items[1..])
  }

  lemma StripAppend(a: seq<Token>, b: seq<Token>)
    ensures Strip(a + b) == Strip(a) + Strip(b)
  {
    if a == [] {
      assert a + b == b;
    } else {
      assert (a + b)[0] == a[0];
      assert (a + b)[1..] == a[1..] + b;
      StripAppend(a[1..], b);
    }
  }

  lemma NumbersAppend(a: seq<Token>, b: seq<Token>)
    ensures Numbers(a + b) == Numbers(a) + Numbers(b)
  {
    if a == [] {
      assert a + b == b;
    } else {
      assert (a + b)[0] == a[0];
      assert (a + b)[1..] == a[1..] + b;
      NumbersAppend(a[1..], b);
    }
  }

  lemma OpenCountPositive(ts: seq<Token>)
    ensures OpenCount(ts) > 0 <==> LParen in ts
  {
    if ts != [] {
      assert ts == [ts[0]] + ts[1..];
    }
  }

  /** What may sit on the operator stack: operators, sqrt and open parentheses. */
  predicate Stackable(t: Token) {
    t.Op? || t.Sqrt? || t.LParen?
  }

  /**
   * The invariant of the conversion loop: the output holds no parenthesis and
   * the stack holds only operators, sqrt and open parentheses.
   */
  ghost predicate Good(c: Converter) {
    && (forall i | 0 <= i < |c.out| :: !IsParen(c.out[i]))
    && (forall i | 0 <= i < |c.stack| :: Stackable(c.stack[i]))
  }

  /**
   * How many entries the inner loop of the operator branch pops: the longest
   * prefix of the stack whose entries all rank at least `p`.
   */
  function HigherPrefix(st: seq<Token>, p: int): (k: nat)
    ensures k <= |st|
    ensures forall i | 0 <= i < k :: Precedence(st[i]) >= p
    ensures k < |st| ==> Precedence(st[k]) < p
  {
    if st == [] || Precedence(st[0]) < p then 0 else 1 + HigherPrefix(st[1..], p)
  }

  /**
   * How many entries the inner loop of the `)` branch pops: the longest prefix
   * of the stack without an open parenthesis.
   */
  function OpenPrefix(st: seq<Token>): (k: nat)
    ensures k <= |st|
    ensures forall i | 0 <= i < k :: !st[i].LParen?
    ensures k < |st| ==> st[k].LParen?
  {
    if st == [] || st[0].LParen? then 0 else 1 + OpenPrefix(st[1..])
  }

  /** Move the top `k` stack entries to the output, top first. */
  function PopTo(c: Converter, k: nat): Converter
    requires k <= |c.stack|
  {
    Converter(c.out + c.stack[..k], c.stack[k..], c.expectOperand)
  }

  /** Whether the item leaves the converter expecting an operand. */
  predicate ExpectsOperandAfter(t: Token) {
    t.Op? || t.Sqrt? || t.LParen?
  }

  /** Change in the number of open parentheses on the stack caused by a token. */
  function Nesting(t: Token): int {
    if t.LParen? then 1 else if t.RParen? then -1 else 0
  }

  /** One pass of the main loop of toPostfix over one scanned item. */
  function Step(c: Converter, item: Item): (r: Result<Converter, ExprError>)
    ensures item.Bad? ==> r == Failure(InvalidToken(item.text))
    ensures item.Blank? ==> r == Success(c)
    ensures item.Tok? && item.token.Op? ==> (r.Failure? <==> c.expectOperand)
    ensures item.Tok? && item.token.Op? && c.expectOperand ==> r == Failure(ConsecutiveOperators)
    ensures item.Tok? && item.token.RParen? ==> (r.Failure? <==> LParen !in c.stack)
    ensures item.Tok? && item.token.RParen? && r.Failure? ==> r.error == MismatchedParentheses
    ensures item.Tok? && !item.token.Op? && !item.token.RParen? ==> r.Success?
  {
    match item
    case Blank => Success(c)
    case Bad(w) => Failure(InvalidToken(w))
    case Tok(t) =>
      match t
      case Num(_) =>
        Success(Converter(c.out + [t], c.stack, false))
      case Sqrt =>
        Success(Converter(c.out, [Sqrt] + c.stack, true))
      case Op(_) =>
        if c.expectOperand then Failure(ConsecutiveOperators)
        else
          var d := PopTo(c, HigherPrefix(c.stack, Precedence(t)));
          Success(Converter(d.out, [t] + d.stack, true))
      case LParen =>
        Success(Converter(c.out, [LParen] + c.stack, true))
      case RParen =>
        var k := OpenPrefix(c.stack);
        var d := PopTo(c, k);
        assert LParen in c.stack <==> k < |c.stack| by {
          if k < |c.stack| {
            assert c.stack[k] == LParen;
          }
        }
        if d.stack == [] then Failure(MismatchedParentheses)
        else
          var rest := d.stack[1..];
          if rest != [] && rest[0] == Sqrt then
            Success(Converter(d.out + [Sqrt], rest[1..], false))
          else
            Success(Converter(d.out, rest, false))
  }

  lemma OpenCountCons(t: Token, st: seq<Token>)
    ensures OpenCount([t] + st) == (if t.LParen? then 1 else 0) + OpenCount(st)
  {
    assert ([t] + st)[1..] == st;
  }

  /**
   * What one step over a token does to the flag and to the count of open
   * parentheses on the stack.
   */
  lemma StepShape(c: Converter, t: Token)
    requires Step(c, Tok(t)).Success?
    ensures Step(c, Tok(t)).value.expectOperand == ExpectsOperandAfter(t)
    ensures OpenCount(Step(c, Tok(t)).value.stack) == OpenCount(c.stack) + Nesting(t)
  {
    match t
    case Num(_) =>
    case Sqrt =>
      OpenCountCons(Sqrt, c.stack);
    case LParen =>
      OpenCountCons(LParen, c.stack);
    case Op(_) =>
      var k := HigherPrefix(c.stack, Precedence(t));
      OpenCountSplit(c.stack, k);
      OpenCountCons(t, c.stack[k..]);
    case RParen =>
      StepCloseShape(c);
  }

  lemma StepCloseShape(c: Converter)
    requires Step(c, Tok(RParen)).Success?
    ensures OpenCount(Step(c, Tok(RParen)).value.stack) == OpenCount(c.stack) - 1
  {
    var k := OpenPrefix(c.stack);
    OpenCountSplit(c.stack, k);
    var st := c.stack[k..];
    OpenCountCons(st[0], st[1..]);
    assert st == [st[0]] + st[1..];
    var rest := st[1..];
    if rest != [] && rest[0] == Sqrt {
      OpenCountCons(rest[0], rest[1..]);
      assert rest == [rest[0]] + rest[1..];
    }
  }

  /** Moving a prefix without open parentheses from the stack to the output keeps the invariant. */
  lemma GoodPop(c: Converter, k: nat)
    requires Good(c) && k <= |c.stack|
    requires forall i | 0 <= i < k :: !c.stack[i].LParen?
    ensures Good(PopTo(c, k))
  {
    var d := PopTo(c, k);
    forall i | 0 <= i < |d.out|
      ensures !IsParen(d.out[i])
    {
      if i < |c.out| {
        assert d.out[i] == c.out[i];
      } else {
        assert d.out[i] == c.stack[i - |c.out|];
      }
    }
    assert forall i | 0 <= i < |d.stack| :: d.stack[i] == c.stack[k + i];
  }

  /** The state after an operator read where an operator is allowed. */
  lemma StepOperatorResult(c: Converter, t: Token)
    requires t.Op? && !c.expectOperand
    ensures var d := PopTo(c, HigherPrefix(c.stack, Precedence(t)));
      Step(c, Tok(t)) == Success(Converter(d.out, [t] + d.stack, true))
  {
  }

  /** The state after a `)` that finds its open parenthesis. */
  lemma StepCloseResult(c: Converter)
    requires LParen in c.stack
    ensures OpenPrefix(c.stack) < |c.stack|
    ensures var d := PopTo(c, OpenPrefix(c.stack));
      && d.stack != [] && d.stack[0] == LParen
      && Step(c, Tok(RParen))
         == if d.stack[1..] != [] && d.stack[1..][0] == Sqrt
            then Success(Converter(d.out + [Sqrt], d.stack[2..], false))
            else Success(Converter(d.out, d.stack[1..], false))
  {
    var k := OpenPrefix(c.stack);
    var j :| 0 <= j < |c.stack| && c.stack[j] == LParen;
    assert k <= j;
    var d := PopTo(c, k);
    if |d.stack| >= 2 {
      assert d.stack[1..][1..] == d.stack[2..];
    }
  }

  /** Pushing a stackable token keeps the invariant. */
  lemma GoodPush(c: Converter, t: Token, flag: bool)
    requires Good(c) && Stackable(t)
    ensures Good(Converter(c.out, [t] + c.stack, flag))
  {
    assert forall i | 1 <= i <= |c.stack| :: ([t] + c.stack)[i] == c.stack[i - 1];
  }

  /** Dropping the top of the stack, possibly emitting a sqrt, keeps the invariant. */
  lemma GoodDrop(c: Converter, n: nat, emitted: seq<Token>, flag: bool)
    requires Good(c) && n <= |c.stack|
    requires forall i | 0 <= i < |emitted| :: !IsParen(emitted[i])
    ensures Good(Converter(c.out + emitted, c.stack[n..], flag))
  {
    assert forall i | 0 <= i < |c.stack| - n :: c.stack[n..][i] == c.stack[n + i];
    assert forall i | |c.out| <= i < |c.out + emitted| :: (c.out + emitted)[i] == emitted[i - |c.out|];
  }

  /** One step keeps the loop invariant. */
  lemma StepGood(c: Converter, item: Item)
    requires Good(c) && Step(c, item).Success?
    ensures Good(Step(c, item).value)
  {
    if item.Tok? {
      var t := item.token;
      match t
      case Num(_) =>
        GoodDrop(c, 0, [t], false);
        assert c.stack[0..] == c.stack;
      case Sqrt =>
        GoodPush(c, t, true);
      case LParen =>
        GoodPush(c, t, true);
      case Op(_) =>
        var k := HigherPrefix(c.stack, Precedence(t));
        assert forall i | 0 <= i < k :: Precedence(c.stack[i]) >= 1;
        GoodPop(c, k);
        GoodPush(PopTo(c, k), t, true);
        StepOperatorResult(c, t);
      case RParen =>
        var k := OpenPrefix(c.stack);
        StepCloseResult(c);
        GoodPop(c, k);
        var d := PopTo(c, k);
        GoodDrop(d, 1, [], false);
        assert d.out + [] == d.out;
        if d.stack[1..] != [] && d.stack[1..][0] == Sqrt {
          GoodDrop(d, 2, [Sqrt], false);
        }
    }
  }

  lemma StripNoParens(ts: seq<Token>)
    requires forall i | 0 <= i < |ts| :: !IsParen(ts[i])
    ensures Strip(ts) == ts
  {
    if ts != [] {
      StripNoParens(ts[1..]);
    }
  }

  lemma NumbersNone(ts: seq<Token>)
    requires forall i | 0 <= i < |ts| :: !ts[i].Num?
    ensures Numbers(ts) == []
  {
    if ts != [] {
      NumbersNone(ts[1..]);
    }
  }

  /** The tokens an item contributes to the conversion. */
  function ItemTokens(item: Item): seq<Token> {
    if item.Tok? then [item.token] else []
  }

  /** The numbers a step emits are those of its item, in order. */
  lemma StepNumbers(c: Converter, item: Item)
    requires Good(c) && Step(c, item).Success?
    ensures Numbers(Step(c, item).value.out) == Numbers(c.out) + Numbers(ItemTokens(item))
  {
    if item.Tok? {
      var t := item.token;
      var d := Step(c, item).value;
      match t
      case Num(_) =>
        NumbersAppend(c.out, [t]);
      case Sqrt =>
      case LParen =>
      case Op(_) =>
        var k := HigherPrefix(c.stack, Precedence(t));
        var top := c.stack[..k];
        assert d.out == c.out + top;
        assert forall i | 0 <= i < |top| :: Stackable(top[i]);
        NumbersNone(top);
        NumbersAppend(c.out, top);
      case RParen =>
        var k := OpenPrefix(c.stack);
        var top, rest := c.stack[..k], c.stack[k + 1..];
        assert forall i | 0 <= i < |top| :: Stackable(top[i]);
        NumbersNone(top);
        NumbersAppend(c.out, top);
        if rest != [] && rest[0] == Sqrt {
          assert d.out == c.out + top + [Sqrt];
          NumbersAppend(c.out + top, [Sqrt]);
        } else {
          assert d.out == c.out + top;
        }
    }
  }

  /**
   * One step moves tokens between input, stack and output without losing or
   * inventing any: a number goes straight to the output, an operator or sqrt
   * onto the stack, popped entries from the stack to the output, and only
   * parentheses are dropped.
   */
  lemma StepConserves(c: Converter, item: Item)
    requires Good(c) && Step(c, item).Success?
    ensures multiset(Step(c, item).value.out) + multiset(Strip(Step(c, item).value.stack))
         == multiset(c.out) + multiset(Strip(c.stack)) + multiset(Strip(ItemTokens(item)))
  {
    if item.Tok? {
      var t := item.token;
      match t
      case Op(_) =>
        StepConservesOp(c, t);
      case RParen =>
        StepConservesRParen(c);
      case _ =>
        StepConservesPush(c, t);
    }
  }

  /** A number, `sqrt` or `(` is moved to the output or the stack as it is. */
  lemma StepConservesPush(c: Converter, t: Token)
    requires !t.Op? && !t.RParen?
    ensures multiset(Step(c, Tok(t)).value.out) + multiset(Strip(Step(c, Tok(t)).value.stack))
         == multiset(c.out) + multiset(Strip(c.stack)) + multiset(Strip([t]))
  {
    match t
    case Num(_) =>
      assert Strip([t]) == [t];
    case Sqrt =>
      StripAppend([t], c.stack);
      assert Strip([t]) == [t];
    case LParen =>
      StripAppend([t], c.stack);
      assert Strip([t]) == [];
  }

  lemma StepConservesOp(c: Converter, t: Token)
    requires Good(c) && t.Op? && !c.expectOperand
    ensures multiset(Step(c, Tok(t)).value.out) + multiset(Strip(Step(c, Tok(t)).value.stack))
         == multiset(c.out) + multiset(Strip(c.stack)) + multiset(Strip([t]))
  {
    StepConservesOperator(c, t);
    StepOperatorResult(c, t);
    assert Strip([t]) == [t];
  }

  lemma StepConservesRParen(c: Converter)
    requires Good(c) && LParen in c.stack
    ensures multiset(Step(c, Tok(RParen)).value.out) + multiset(Strip(Step(c, Tok(RParen)).value.stack))
         == multiset(c.out) + multiset(Strip(c.stack)) + multiset(Strip([RParen]))
  {
    StepCloseResult(c);
    StepConservesClose(c);
    assert Strip([RParen]) == [];
  }

  /** Popping a prefix without open parentheses moves tokens from the stack to the output. */
  lemma PopConserves(c: Converter, k: nat)
    requires Good(c) && k <= |c.stack|
    requires forall i | 0 <= i < k :: !c.stack[i].LParen?
    ensures multiset(PopTo(c, k).out) + multiset(Strip(PopTo(c, k).stack))
         == multiset(c.out) + multiset(Strip(c.stack))
  {
    var top, rest := c.stack[..k], c.stack[k..];
    assert c.stack == top + rest;
    assert forall i | 0 <= i < |top| :: Stackable(top[i]) && !top[i].LParen?;
    StripNoParens(top);
    StripAppend(top, rest);
  }

  lemma StepConservesOperator(c: Converter, t: Token)
    requires Good(c) && t.Op?
    ensures var d := PopTo(c, HigherPrefix(c.stack, Precedence(t)));
      multiset(d.out) + multiset(Strip([t] + d.stack)) == multiset(c.out) + multiset(Strip(c.stack)) + multiset{t}
  {
    var k := HigherPrefix(c.stack, Precedence(t));
    assert Precedence(t) >= 1;
    forall i | 0 <= i < k
      ensures !c.stack[i].LParen?
    {
      assert Precedence(c.stack[i]) >= 1;
    }
    PopConserves(c, k);
    var d := PopTo(c, k);
    StripAppend([t], d.stack);
    assert Strip([t]) == [t];
    assert multiset([t] + Strip(d.stack)) == multiset{t} + multiset(Strip(d.stack));
  }

  lemma StepConservesClose(c: Converter)
    requires Good(c) && OpenPrefix(c.stack) < |c.stack|
    ensures var d := PopTo(c, OpenPrefix(c.stack));
      && multiset(d.out) + multiset(Strip(d.stack[1..])) == multiset(c.out) + multiset(Strip(c.stack))
      && (d.stack[1..] != [] && d.stack[1..][0] == Sqrt ==>
            multiset(d.out + [Sqrt]) + multiset(Strip(d.stack[2..])) == multiset(c.out) + multiset(Strip(c.stack)))
  {
    var k := OpenPrefix(c.stack);
    PopConserves(c, k);
    var d := PopTo(c, k);
    assert d.stack == [LParen] + d.stack[1..];
    StripAppend([LParen], d.stack[1..]);
    assert Strip([LParen]) == [];
    if d.stack[1..] != [] && d.stack[1..][0] == Sqrt {
      ClosePopsSqrt(d.stack[1..]);
      assert d.stack[1..][1..] == d.stack[2..];
    }
  }

  lemma ClosePopsSqrt(rest: seq<Token>)
    requires rest != [] && rest[0] == Sqrt
    ensures multiset(Strip(rest)) == multiset{Sqrt} + multiset(Strip(rest[1..]))
  {
    assert rest == [Sqrt] + rest[1..];
    StripAppend([Sqrt], rest[1..]);
    assert Strip([Sqrt]) == [Sqrt];
  }

  /** Counting open parentheses across a split of the stack. */
  lemma OpenCountSplit(st: seq<Token>, k: nat)
    requires k <= |st|
    ensures OpenCount(st) == OpenCount(st[..k]) + OpenCount(st[k..])
    ensures (forall i | 0 <= i < k :: !st[i].LParen?) ==> OpenCount(st[..k]) == 0
  {
    if k > 0 {
      OpenCountSplit(st[1..], k - 1);
      assert st[1..][..k - 1] == st[..k][1..];
      assert st[1..][k - 1..] == st[k..];
    }
  }

  /** The main loop of toPostfix over all scanned items; the first failure stops it. */
  function Run(c: Converter, items: seq<Item>): (r: Result<Converter, ExprError>)
    ensures r.Success? && Good(c) ==> Good(r.value)
    decreases |items|
  {
    if items == [] then Success(c)
    else
      var c' :- Step(c, items[0]);
      assert Good(c) ==> Good(c') by {
        if Good(c) {
          StepGood(c, items[0]);
        }
      }
      Run(c', items[1..])
  }

  lemma TokensOfCons(items: seq<Item>)
    requires items != []
    ensures TokensOf(items) == ItemTokens(items[0]) + TokensOf(items[1..])
  {
  }

  /** The loop emits the numbers of the input in their input order. */
  lemma {:induction false} RunNumbers(c: Converter, items: seq<Item>)
    requires Good(c) && Run(c, items).Success?
    ensures Numbers(Run(c, items).value.out) == Numbers(c.out) + Numbers(TokensOf(items))
    decreases |items|
  {
    if items != [] {
      var c' := Step(c, items[0]).value;
      StepGood(c, items[0]);
      StepNumbers(c, items[0]);
      RunNumbers(c', items[1..]);
      TokensOfCons(items);
      NumbersAppend(ItemTokens(items[0]), TokensOf(items[1..]));
    }
  }

  /**
   * The loop neither loses nor invents a token: output plus the non-parenthesis
   * part of the stack grow by exactly the non-parenthesis input tokens.
   */
  lemma {:induction false} RunConserves(c: Converter, items: seq<Item>)
    requires Good(c) && Run(c, items).Success?
    ensures multiset(Run(c, items).value.out) + multiset(Strip(Run(c, items).value.stack))
         == multiset(c.out) + multiset(Strip(c.stack)) + multiset(Strip(TokensOf(items)))
    decreases |items|
  {
    if items != [] {
      var c' := Step(c, items[0]).value;
      StepGood(c, items[0]);
      StepConserves(c, items[0]);
      RunConserves(c', items[1..]);
      TokensOfCons(items);
      StripAppend(ItemTokens(items[0]), TokensOf(items[1..]));
    }
  }

  /**
   * The end of toPostfix: reject a trailing operator, then drain the stack,
   * rejecting an open parenthesis left on it.
   */
  function Finish(c: Converter): (r: Result<seq<Token>, ExprError>)
    ensures c.expectOperand ==> r == Failure(EndsWithOperator)
    ensures !c.expectOperand ==> (r.Failure? <==> LParen in c.stack || RParen in c.stack)
    ensures r.Failure? && !c.expectOperand ==> r.error == MismatchedParentheses
    ensures r.Success? ==> r.value == c.out + c.stack
  {
    if c.expectOperand then Failure(EndsWithOperator)
    else if LParen in c.stack || RParen in c.stack then Failure(MismatchedParentheses)
    else Success(c.out + c.stack)
  }

  /**
   * toPostfix. A successful conversion holds no parenthesis, is a permutation
   * of the input's tokens with the parentheses removed, and lists the numbers
   * in the order the input does.
   */
  function ToPostfix(expression: string): (r: Result<seq<Token>, ExprError>)
    ensures r.Success? ==> forall i | 0 <= i < |r.value| :: !IsParen(r.value[i])
    ensures r.Success? ==> multiset(r.value) == multiset(Strip(TokensOf(Scan(expression))))
    ensures r.Success? ==> Numbers(r.value) == Numbers(TokensOf(Scan(expression)))
  {
    var c :- Run(Start, Scan(expression));
    FinishConserves(Scan(expression), c);
    Finish(c)
  }

  /** The conversion of a text whose items and converter run are known. */
  lemma ConvertVia(expression: string, items: seq<Item>, c: Converter)
    requires Scan(expression) == items && Run(Start, items) == Success(c)
    ensures ToPostfix(expression) == Finish(c)
  {
  }

  /** What a completed conversion holds, in terms of the items it read. */
  lemma FinishConserves(items: seq<Item>, c: Converter)
    requires Run(Start, items) == Success(c)
    ensures Finish(c).Success? ==> forall i | 0 <= i < |Finish(c).value| :: !IsParen(Finish(c).value[i])
    ensures Finish(c).Success? ==> multiset(Finish(c).value) == multiset(Strip(TokensOf(items)))
    ensures Finish(c).Success? ==> Numbers(Finish(c).value) == Numbers(TokensOf(items))
  {
    if Finish(c).Success? {
      assert Good(Start);
      DrainedStack(c);
      FinishMultiset(items, c);
      FinishNumbers(items, c);
    }
  }

  /** A stack left without open parentheses holds only operators and sqrt. */
  lemma DrainedStack(c: Converter)
    requires Good(c) && LParen !in c.stack
    ensures forall i | 0 <= i < |c.stack| :: !IsParen(c.stack[i])
    ensures Strip(c.stack) == c.stack && Numbers(c.stack) == []
  {
    assert forall i | 0 <= i < |c.stack| :: Stackable(c.stack[i]) && c.stack[i] != LParen;
    StripNoParens(c.stack);
    NumbersNone(c.stack);
  }

  lemma FinishMultiset(items: seq<Item>, c: Converter)
    requires Run(Start, items) == Success(c) && Strip(c.stack) == c.stack
    ensures multiset(c.out + c.stack) == multiset(Strip(TokensOf(items)))
  {
    assert Good(Start);
    RunConserves(Start, items);
    assert Strip(Start.stack) == [];
  }

  lemma FinishNumbers(items: seq<Item>, c: Converter)
    requires Run(Start, items) == Success(c) && Numbers(c.stack) == []
    ensures Numbers(c.out + c.stack) == Numbers(TokensOf(items))
  {
    assert Good(Start);
    RunNumbers(Start, items);
    NumbersAppend(c.out, c.stack);
  }

}
