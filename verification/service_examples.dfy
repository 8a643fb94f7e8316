/**
 * Worked calls of the ledger services on a small ledger: one user, id 7,
 * with 100 on the balance, and a cost for addition, multiplication and the
 * random string.
 */
module ServiceExamples {
  import opened Wrappers
  import opened Syntax
  import opened PostfixEvaluator
  import opened Ledger
  import opened EdgeCases

  const Costs: map<string, real> := map["add" := 5.0, "multiply" := 7.0, RandomStringType := 2.0]

  /** The starting ledger: user 7 with the given balance and no records. */
  function Initial(balance: real): Bank {
    Bank(map[7 := balance], Costs, [])
  }

  /** A one-character marker is detected when and only when the character occurs. */
  lemma NoMarker(s: string, c: char)
    requires c !in s
    ensures !Contains(s, [c])
  {
    ContainsChar(s, c);
  }

  lemma HasMarker(s: string, c: char)
    requires c in s
    ensures Contains(s, [c])
  {
    ContainsChar(s, c);
  }

  /**
   * A call whose expression is known to evaluate to `value` and to be of type
   * `kind`, on the starting ledger, when the balance covers the cost.
   */
  lemma Charged(expression: string, value: real, kind: string, balance: real, sqrt: real -> real)
    requires Evaluate(expression, sqrt) == Success(value)
    requires DetectOperationType(expression) == Success(kind)
    requires kind in Costs && balance >= Costs[kind]
    ensures ExecuteOperation(Initial(balance), 7, expression, sqrt)
         == Reply(Success(value), Bank(map[7 := balance - Costs[kind]], Costs,
                                      [Record(kind, 7, value, balance - Costs[kind], ResultText(value))]))
  {
    ChargeInitial(kind, balance, value, ResultText(value));
  }

  /** The charge on the starting ledger when the balance covers the cost. */
  lemma ChargeInitial(kind: string, balance: real, amount: real, response: Response)
    requires kind in Costs && balance >= Costs[kind]
    ensures Charge(Initial(balance), 7, kind, Costs[kind], amount, response)
         == Success(Bank(map[7 := balance - Costs[kind]], Costs, [Record(kind, 7, amount, balance - Costs[kind], response)]))
  {
    var entry := Record(kind, 7, amount, balance - Costs[kind], response);
    assert Initial(balance).balances[7 := balance - Costs[kind]] == map[7 := balance - Costs[kind]];
    assert Initial(balance).records + [entry] == [entry];
  }

  /** The same call when the balance does not cover the cost. */
  lemma Refused(expression: string, value: real, kind: string, balance: real, sqrt: real -> real)
    requires Evaluate(expression, sqrt) == Success(value)
    requires DetectOperationType(expression) == Success(kind)
    requires kind in Costs && balance < Costs[kind]
    ensures ExecuteOperation(Initial(balance), 7, expression, sqrt) == Reply(Failure(InsufficientBalance), Initial(balance))
  {
  }

  lemma DetectAdd(expression: string)
    requires expression == "10 + 1"
    ensures DetectOperationType(expression) == Success("add")
  {
    NoMarker(expression, '*');
    NoMarker(expression, '/');
    HasMarker(expression, '+');
  }

  lemma DetectMultiply(expression: string)
    requires expression == "2 * 3 + 4"
    ensures DetectOperationType(expression) == Success("multiply")
  {
    HasMarker(expression, '*');
  }

  lemma DetectSubtract(expression: string)
    requires expression == "8 - 3 - 2"
    ensures DetectOperationType(expression) == Success("subtract")
  {
    NoMarker(expression, '*');
    NoMarker(expression, '/');
    NoMarker(expression, '+');
    HasMarker(expression, '-');
  }

  lemma DetectNone(expression: string)
    requires expression == "5"
    ensures DetectOperationType(expression) == Failure(UnknownOperation)
  {
    NoMarker(expression, '*');
    NoMarker(expression, '/');
    NoMarker(expression, '+');
    NoMarker(expression, '-');
  }

  /** `10 + 1` costs the addition price and records the value 11. */
  lemma ChargedAddition(expression: string, sqrt: real -> real)
    requires expression == "10 + 1"
    ensures ExecuteOperation(Initial(100.0), 7, expression, sqrt)
         == Reply(Success(11.0), Bank(map[7 := 95.0], Costs, [Record("add", 7, 11.0, 95.0, ResultText(11.0))]))
  {
    TenPlusOne(expression, sqrt);
    DetectAdd(expression);
    Charged(expression, 11.0, "add", 100.0, sqrt);
  }

  /**
   * Detection reads the raw text by priority: `2 * 3 + 4` is charged as a
   * multiplication although its last operator is an addition.
   */
  lemma ChargedByPriority(expression: string, sqrt: real -> real)
    requires expression == "2 * 3 + 4"
    ensures ExecuteOperation(Initial(100.0), 7, expression, sqrt)
         == Reply(Success(10.0), Bank(map[7 := 93.0], Costs, [Record("multiply", 7, 10.0, 93.0, ResultText(10.0))]))
  {
    TimesBeforePlus(expression, sqrt);
    DetectMultiply(expression);
    Charged(expression, 10.0, "multiply", 100.0, sqrt);
  }

  /**
   * A lone number evaluates, but names no operation type: the call fails and
   * nothing is charged or recorded.
   */
  lemma NumberWithoutOperation(expression: string, sqrt: real -> real)
    requires expression == "5"
    ensures Evaluate(expression, sqrt) == Success(5.0)
    ensures ExecuteOperation(Initial(100.0), 7, expression, sqrt) == Reply(Failure(UnknownOperation), Initial(100.0))
  {
    LoneNumber(expression, sqrt);
    DetectNone(expression);
  }

  /** An evaluation failure is reported with its cause, before any charge. */
  lemma DivisionByZeroNotCharged(expression: string, sqrt: real -> real)
    requires expression == "10 / 0"
    ensures ExecuteOperation(Initial(100.0), 7, expression, sqrt)
         == Reply(Failure(InvalidExpression(DivisionByZero)), Initial(100.0))
  {
    TenByZero(expression, sqrt);
  }

  /** With less on the balance than the cost, the call fails and nothing changes. */
  lemma InsufficientBalanceNotCharged(expression: string, sqrt: real -> real)
    requires expression == "10 + 1"
    ensures ExecuteOperation(Initial(3.0), 7, expression, sqrt) == Reply(Failure(InsufficientBalance), Initial(3.0))
  {
    TenPlusOne(expression, sqrt);
    DetectAdd(expression);
    Refused(expression, 11.0, "add", 3.0, sqrt);
  }

  /** An operation type with no cost on file is reported as such. */
  lemma CostMissing(expression: string, sqrt: real -> real)
    requires expression == "8 - 3 - 2"
    ensures ExecuteOperation(Initial(100.0), 7, expression, sqrt) == Reply(Failure(OperationCostMissing), Initial(100.0))
  {
    MinusLeftAssociative(expression, sqrt);
    DetectSubtract(expression);
  }

  /** An unknown user is reported first, whatever the expression. */
  lemma UnknownUser(expression: string, sqrt: real -> real)
    ensures ExecuteOperation(Initial(100.0), 8, expression, sqrt) == Reply(Failure(UserNotFound), Initial(100.0))
  {
  }

  lemma RechargeAdds()
    ensures AddBalance(Initial(100.0), 7, 50.0) == Reply(Success(()), Initial(150.0))
    ensures AddBalance(Initial(100.0), 7, 0.0) == Reply(Failure(NonPositiveRecharge), Initial(100.0))
    ensures AddBalance(Initial(100.0), 8, 0.0) == Reply(Failure(NonPositiveRecharge), Initial(100.0))
    ensures AddBalance(Initial(100.0), 8, 50.0) == Reply(Failure(UserNotFound), Initial(100.0))
  {
  }

  lemma RandomStringCharged(random: string)
    ensures GenerateRandomString(Initial(100.0), 7, random)
         == Reply(Success(random), Bank(map[7 := 98.0], Costs, [Record(RandomStringType, 7, 0.0, 98.0, RandomText(random))]))
    ensures GenerateRandomString(Initial(1.0), 7, random) == Reply(Failure(InsufficientBalance), Initial(1.0))
    ensures GenerateRandomString(Bank(map[7 := 100.0], map[], []), 7, random)
         == Reply(Failure(RandomStringCostMissing), Bank(map[7 := 100.0], map[], []))
  {
  }
}
