/**
 * The vocabulary of ExpressionEvaluator: the classified tokens, the number
 * pattern `\d+(\.\d+)?`, the operator precedence table and the closed set of
 * reasons an expression is rejected.
 */
module Syntax {

  datatype BinOp = Add | Sub | Mul | Div

  /** A classified token. A number keeps its spelling; its value is read only by the evaluator. */
  datatype Token = Num(text: string) | Op(op: BinOp) | Sqrt | LParen | RParen

  /**
   * Every way ExpressionEvaluator throws InvalidExpressionException, one
   * constructor per distinct message.
   */
  datatype ExprError =
    | InvalidToken(text: string)          // "Invalid token: " + token
    | ConsecutiveOperators                // "Invalid expression: consecutive operators."
    | MismatchedParentheses               // "Invalid expression: mismatched parentheses."
    | EndsWithOperator                    // "Invalid expression: ends with an operator."
    | InsufficientValues(operator: string) // "Invalid expression: insufficient values for operator " + token
    | NoValueForSqrt                      // "Invalid expression: no value for sqrt."
    | DivisionByZero                      // "Division by zero is not allowed."
    | InvalidPostfixToken(text: string)   // "Invalid token in postfix: " + token
    | TooManyValues                       // "Invalid expression: too many values."

  function Symbol(o: BinOp): char {
    match o
    case Add => '+'
    case Sub => '-'
    case Mul => '*'
    case Div => '/'
  }

  /** The text of a token as it appears in an expression and in the postfix string. */
  function Lexeme(t: Token): string {
    match t
    case Num(text) => text
    case Op(o) => [Symbol(o)]
    case Sqrt => "sqrt"
    case LParen => "("
    case RParen => ")"
  }

  predicate IsDigit(c: char) {
    '0' <= c <= '9'
  }

  predicate AllDigits(s: string) {
    forall i | 0 <= i < |s| :: IsDigit(s[i])
  }

  /** Position of the first '.' in `s`, or |s| when there is none. */
  function DotIndex(s: string): (k: nat)
    ensures k <= |s|
    ensures k < |s| ==> s[k] == '.'
    ensures forall i | 0 <= i < k :: s[i] != '.'
  {
    if s == [] then 0
    else if s[0] == '.' then 0
    else 1 + DotIndex(s[1..])
  }

  /**
   * The regular expression `\d+(\.\d+)?`: one or more ASCII digits,
   * optionally followed by a point and one or more digits.
   */
  predicate IsNumeral(s: string) {
    var k := DotIndex(s);
    && 0 < k
    && AllDigits(s[..k])
    && (k == |s| || (k + 1 < |s| && AllDigits(s[k + 1..])))
  }

  /** Tokens whose spelling is what the tokenizer would hand back for them. */
  predicate WellFormed(t: Token) {
    t.Num? ==> IsNumeral(t.text)
  }

  predicate AllWellFormed(ts: seq<Token>) {
    forall i | 0 <= i < |ts| :: WellFormed(ts[i])
  }

  function DigitsValue(s: string): nat
    requires AllDigits(s)
  {
    if s == [] then 0
    else 10 * DigitsValue(s[..|s| - 1]) + (s[|s| - 1] as int - '0' as int)
  }

  function Pow10(n: nat): (p: nat)
    ensures p >= 1
  {
    if n == 0 then 1 else 10 * Pow10(n - 1)
  }

  /** The exact decimal value of a numeral (Double.parseDouble without rounding). */
  function NumeralValue(s: string): real
    requires IsNumeral(s)
  {
    var k := DotIndex(s);
    if k == |s| then DigitsValue(s) as real
    else DigitsValue(s[..k]) as real + DigitsValue(s[k + 1..]) as real / Pow10(|s| - k - 1) as real
  }

  /** The precedence table: + - rank 1, * / rank 2, sqrt rank 3, everything else -1. */
  function Precedence(t: Token): int {
    match t
    case Op(Add) => 1
    case Op(Sub) => 1
    case Op(Mul) => 2
    case Op(Div) => 2
    case Sqrt => 3
    case _ => -1
  }

  /**
   * The ranking the table encodes: an open parenthesis ranks below every
   * binary operator (so no operator is ever popped past it), sqrt ranks above
   * every binary operator, and * / rank above + -. The exact ranks are
   * 1 for + -, 2 for * /, 3 for sqrt and -1 for everything else.
   */
  lemma PrecedenceOrder(o: BinOp)
    ensures Precedence(LParen) < 1 <= Precedence(Op(o)) < Precedence(Sqrt)
    ensures Precedence(Op(o)) == 2 <==> o == Mul || o == Div
    ensures Precedence(Op(Add)) == Precedence(Op(Sub)) < Precedence(Op(Mul)) == Precedence(Op(Div))
    ensures Precedence(Op(Add)) == 1 && Precedence(Op(Mul)) == 2 && Precedence(Sqrt) == 3
    ensures Precedence(LParen) == -1 && Precedence(RParen) == -1
    ensures forall text :: Precedence(Num(text)) == -1
  {
  }

  /** A numeral is made of digits and at most one point: no delimiter, no blank, no letter. */
  lemma NumeralChars(s: string)
    requires IsNumeral(s)
    ensures |s| > 0
    ensures forall i | 0 <= i < |s| :: IsDigit(s[i]) || s[i] == '.'
  {
    var k := DotIndex(s);
    forall i | 0 <= i < |s|
      ensures IsDigit(s[i]) || s[i] == '.'
    {
      if i < k {
        assert s[..k][i] == s[i];
      } else if i > k {
        assert s[k + 1..][i - k - 1] == s[i];
      }
    }
  }

  /** A non-empty run of digits is a numeral whose value is the run read in base ten. */
  lemma DigitsNumeral(s: string)
    requires s != [] && AllDigits(s)
    ensures IsNumeral(s) && NumeralValue(s) == DigitsValue(s) as real
  {
    assert DotIndex(s) == |s|;
    assert s[..|s|] == s;
  }

  /** Concatenation is associative; stated apart so proofs need not rediscover it in a crowded context. */
  lemma Regroup3<T>(a: seq<T>, b: seq<T>, c: seq<T>)
    ensures a + b + c == a + (b + c)
  {
  }
}
