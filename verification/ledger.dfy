/**
 * The balance ledger of UserService and OperationService. The user
 * repository is a map from user id to balance, the operation repository a
 * map from operation type to cost, and the saved records an append-only
 * log. Balances are exact decimals in the source, so they are reals here.
 *
 * Every service call returns its result together with the ledger after the
 * call, so that "a failed call changes nothing" is a statement about the
 * returned ledger.
 */
module Ledger {
  import opened Wrappers
  import opened Syntax
  import opened PostfixEvaluator

  type UserId = int

  /** The text saved as a record's operation response. */
  datatype Response = ResultText(value: real) | RandomText(text: string)

  /** One saved record: the operation type, the user, the amount, the balance after the charge. */
  datatype Record = Record(operation: string, user: UserId, amount: real, balanceAfter: real, response: Response)

  datatype Bank = Bank(balances: map<UserId, real>, costs: map<string, real>, records: seq<Record>)

  /**
   * The service-level failures:
   * UserNotFound "User not found.", NonPositiveRecharge "The recharge value
   * must be positive.", InvalidExpression (the evaluator's failure),
   * UnknownOperation "Invalid operation in expression.", OperationCostMissing
   * "Operation not found." (no cost for the detected type),
   * RandomStringCostMissing "Operation not found." (no cost for
   * random-string), InsufficientBalance "Insufficient balance to carry out
   * the operation."
   */
  datatype ServiceError =
    | UserNotFound
    | NonPositiveRecharge
    | InvalidExpression(cause: ExprError)
    | UnknownOperation
    | OperationCostMissing
    | RandomStringCostMissing
    | InsufficientBalance

  /** A call's outcome and the ledger after it. */
  datatype Reply<T> = Reply(result: Result<T, ServiceError>, bank: Bank)

  /** The cost key of the random-string operation. */
  const RandomStringType: string := "random-string"

  /** Every balance in the ledger is non-negative. */
  predicate NonNegative(b: Bank) {
    forall id | id in b.balances :: b.balances[id] >= 0.0
  }

  // ---------------------------------------------------------------- UserService

  /** findById: the user's balance, or "User not found." */
  function FindById(b: Bank, id: UserId): (r: Result<real, ServiceError>)
    ensures r.Success? <==> id in b.balances
    ensures r.Success? ==> r.value == b.balances[id]
    ensures r.Failure? ==> r.error == UserNotFound
  {
    if id in b.balances then Success(b.balances[id]) else Failure(UserNotFound)
  }

  /**
   * getBalance: the stored balance. The user-is-null branch of the source is
   * unreachable because findById already fails for an unknown id.
   */
  function GetBalance(b: Bank, id: UserId): (r: Result<real, ServiceError>)
    ensures r.Success? <==> id in b.balances
    ensures r.Success? ==> r.value == b.balances[id]
    ensures r.Failure? ==> r.error == UserNotFound
  {
    var balance :- FindById(b, id);
    Success(balance)
  }

  /**
   * addBalance: the amount is checked before the user is looked up; on
   * success only the target user's balance changes, by exactly the amount.
   */
  function AddBalance(b: Bank, id: UserId, amount: real): (r: Reply<()>)
    ensures amount <= 0.0 ==> r.result == Failure(NonPositiveRecharge)
    ensures amount > 0.0 && id !in b.balances ==> r.result == Failure(UserNotFound)
    ensures r.result.Success? <==> amount > 0.0 && id in b.balances
    ensures r.result.Failure? ==> r.bank == b
    ensures r.result.Success? ==>
      && r.bank.balances.Keys == b.balances.Keys
      && r.bank.balances[id] == b.balances[id] + amount
      && (forall other | other in b.balances && other != id :: r.bank.balances[other] == b.balances[other])
      && r.bank.costs == b.costs && r.bank.records == b.records
  {
    if amount <= 0.0 then Reply(Failure(NonPositiveRecharge), b)
    else match FindById(b, id)
      case Failure(e) => Reply(Failure(e), b)
      case Success(balance) =>
        Reply(Success(()), b.(balances := b.balances[id := balance + amount]))
  }

  // ---------------------------------------------------------- OperationService

  /** String.contains: `pattern` occurs in `s` at some position. */
  function Contains(s: string, pattern: string): bool
    decreases |s|
  {
    if |s| < |pattern| then false
    else s[..|pattern|] == pattern || Contains(s[1..], pattern)
  }

  /** `pattern` occurs in `s` starting at position `i`. */
  predicate OccursAt(pattern: string, s: string, i: int) {
    0 <= i <= |s| - |pattern| && s[i..i + |pattern|] == pattern
  }

  /** The occurrence relation Contains decides. */
  ghost predicate Occurs(pattern: string, s: string) {
    exists i :: OccursAt(pattern, s, i)
  }

  /** The operation types in detection order and the text each is detected by. */
  const Kinds: seq<string> := ["multiply", "divide", "add", "subtract", "sqrt"]
  const Markers: seq<string> := ["*", "/", "+", "-", "sqrt"]

  /** detectOperationType: the first marker of the fixed priority list found in the raw text. */
  function DetectOperationType(expression: string): (r: Result<string, ServiceError>)
    ensures r.Success? ==> r.value in Kinds
    ensures r.Failure? ==> r.error == UnknownOperation
  {
    if Contains(expression, "*") then Success("multiply")
    else if Contains(expression, "/") then Success("divide")
    else if Contains(expression, "+") then Success("add")
    else if Contains(expression, "-") then Success("subtract")
    else if Contains(expression, "sqrt") then Success("sqrt")
    else Failure(UnknownOperation)
  }

  /** The charge both paid operations apply: balance check, deduction, one record. */
  function Charge(b: Bank, id: UserId, kind: string, cost: real, amount: real, response: Response): (r: Result<Bank, ServiceError>)
    requires id in b.balances
    ensures r.Success? <==> b.balances[id] >= cost
    ensures r.Failure? ==> r.error == InsufficientBalance
    ensures r.Success? ==>
      && r.value.balances == b.balances[id := b.balances[id] - cost]
      && r.value.balances[id] >= 0.0
      && r.value.costs == b.costs
      && r.value.records == b.records + [Record(kind, id, amount, r.value.balances[id], response)]
  {
    var balance := b.balances[id];
    if balance < cost then Failure(InsufficientBalance)
    else
      var balanceNew := balance - cost;
      Success(Bank(b.balances[id := balanceNew], b.costs,
                   b.records + [Record(kind, id, amount, balanceNew, response)]))
  }

  /**
   * executeOperation: look the user up, evaluate the expression, detect the
   * operation type, look its cost up, then charge and record the result.
   */
  function ExecuteOperation(b: Bank, id: UserId, expression: string, sqrt: real -> real): (r: Reply<real>)
    ensures r.result.Failure? ==> r.bank == b
    ensures id !in b.balances ==> r.result == Failure(UserNotFound)
    ensures id in b.balances && Evaluate(expression, sqrt).Failure? ==>
      r.result == Failure(InvalidExpression(Evaluate(expression, sqrt).error))
    ensures id in b.balances && Evaluate(expression, sqrt).Success? && DetectOperationType(expression).Failure? ==>
      r.result == Failure(UnknownOperation)
    ensures (&& id in b.balances && Evaluate(expression, sqrt).Success?
             && DetectOperationType(expression).Success?
             && DetectOperationType(expression).value !in b.costs) ==>
      r.result == Failure(OperationCostMissing)
    ensures (&& id in b.balances && Evaluate(expression, sqrt).Success?
             && DetectOperationType(expression).Success?
             && DetectOperationType(expression).value in b.costs
             && b.balances[id] < b.costs[DetectOperationType(expression).value]) ==>
      r.result == Failure(InsufficientBalance)
    ensures r.result.Success? <==>
      && id in b.balances
      && Evaluate(expression, sqrt).Success?
      && DetectOperationType(expression).Success?
      && DetectOperationType(expression).value in b.costs
      && b.balances[id] >= b.costs[DetectOperationType(expression).value]
    ensures r.result.Success? ==>
      var kind := DetectOperationType(expression).value;
      var value := Evaluate(expression, sqrt).value;
      && r.result.value == value
      && r.bank.balances == b.balances[id := b.balances[id] - b.costs[kind]]
      && r.bank.costs == b.costs
      && r.bank.records == b.records + [Record(kind, id, value, b.balances[id] - b.costs[kind], ResultText(value))]
  {
    match FindById(b, id)
    case Failure(e) => Reply(Failure(e), b)
    case Success(_) =>
      match Evaluate(expression, sqrt)
      case Failure(e) => Reply(Failure(InvalidExpression(e)), b)
      case Success(value) =>
        match DetectOperationType(expression)
        case Failure(e) => Reply(Failure(e), b)
        case Success(kind) =>
          if kind !in b.costs then Reply(Failure(OperationCostMissing), b)
          else match Charge(b, id, kind, b.costs[kind], value, ResultText(value))
            case Failure(e) => Reply(Failure(e), b)
            case Success(b') => Reply(Success(value), b')
  }

  /**
   * generateRandomString: the same charge with the random-string cost; the
   * record's amount is zero. The generated text comes from a random source
   * and is a parameter here.
   */
  function GenerateRandomString(b: Bank, id: UserId, random: string): (r: Reply<string>)
    ensures r.result.Failure? ==> r.bank == b
    ensures id !in b.balances ==> r.result == Failure(UserNotFound)
    ensures id in b.balances && RandomStringType !in b.costs ==> r.result == Failure(RandomStringCostMissing)
    ensures id in b.balances && RandomStringType in b.costs && b.balances[id] < b.costs[RandomStringType] ==>
      r.result == Failure(InsufficientBalance)
    ensures r.result.Success? <==>
      id in b.balances && RandomStringType in b.costs && b.balances[id] >= b.costs[RandomStringType]
    ensures r.result.Success? ==>
      && r.result.value == random
      && r.bank.balances == b.balances[id := b.balances[id] - b.costs[RandomStringType]]
      && r.bank.costs == b.costs
      && r.bank.records == b.records
           + [Record(RandomStringType, id, 0.0, b.balances[id] - b.costs[RandomStringType], RandomText(random))]
  {
    match FindById(b, id)
    case Failure(e) => Reply(Failure(e), b)
    case Success(_) =>
      if RandomStringType !in b.costs then Reply(Failure(RandomStringCostMissing), b)
      else match Charge(b, id, RandomStringType, b.costs[RandomStringType], 0.0, RandomText(random))
        case Failure(e) => Reply(Failure(e), b)
        case Success(b') => Reply(Success(random), b')
  }

  // ------------------------------------------------------------------ Lemmas

  /** Contains decides occurrence. */
  lemma {:induction false} ContainsOccurs(s: string, pattern: string)
    ensures Contains(s, pattern) <==> Occurs(pattern, s)
    decreases |s|
  {
    if |s| < |pattern| {
    } else if s[..|pattern|] == pattern {
      assert OccursAt(pattern, s, 0);
    } else {
      ContainsOccurs(s[1..], pattern);
      if Occurs(pattern, s) {
        var i :| OccursAt(pattern, s, i);
        assert i != 0;
        assert s[1..][i - 1..i - 1 + |pattern|] == pattern;
        assert OccursAt(pattern, s[1..], i - 1);
      }
      if Occurs(pattern, s[1..]) {
        var i :| OccursAt(pattern, s[1..], i);
        assert s[i + 1..i + 1 + |pattern|] == pattern;
        assert OccursAt(pattern, s, i + 1);
      }
    }
  }

  /**
   * Detection follows the priority list: it succeeds exactly when some marker
   * occurs, and then names the first marker of the list that occurs.
   */
  lemma DetectByPriority(expression: string)
    ensures DetectOperationType(expression).Success? <==>
      exists k | 0 <= k < |Markers| :: Occurs(Markers[k], expression)
    ensures DetectOperationType(expression).Success? ==>
      exists k | 0 <= k < |Markers| ::
        && DetectOperationType(expression).value == Kinds[k]
        && Occurs(Markers[k], expression)
        && (forall j | 0 <= j < k :: !Occurs(Markers[j], expression))
  {
    forall k | 0 <= k < |Markers| {
      ContainsOccurs(expression, Markers[k]);
    }
    var r := DetectOperationType(expression);
    if r.Success? {
      var k := if r.value == "multiply" then 0 else if r.value == "divide" then 1
        else if r.value == "add" then 2 else if r.value == "subtract" then 3 else 4;
      assert r.value == Kinds[k] && Occurs(Markers[k], expression);
      assert forall j | 0 <= j < k :: !Occurs(Markers[j], expression);
    }
  }

  /** A one-character marker occurs exactly when the character is in the text. */
  lemma ContainsChar(s: string, c: char)
    ensures Contains(s, [c]) <==> c in s
  {
    ContainsOccurs(s, [c]);
    if c in s {
      var i :| 0 <= i < |s| && s[i] == c;
      assert OccursAt([c], s, i);
    }
    if Occurs([c], s) {
      var i :| OccursAt([c], s, i);
      assert s[i] == s[i..i + 1][0];
    }
  }

  lemma AddBalanceKeeps(b: Bank, id: UserId, amount: real)
    requires NonNegative(b)
    ensures NonNegative(AddBalance(b, id, amount).bank)
  {
  }

  lemma ExecuteOperationKeeps(b: Bank, id: UserId, expression: string, sqrt: real -> real)
    requires NonNegative(b)
    ensures NonNegative(ExecuteOperation(b, id, expression, sqrt).bank)
  {
  }

  lemma GenerateRandomStringKeeps(b: Bank, id: UserId, random: string)
    requires NonNegative(b)
    ensures NonNegative(GenerateRandomString(b, id, random).bank)
  {
  }

  /**
   * A recharge is read back by getBalance: after a successful addBalance the
   * balance reported is the old one plus the amount, for every other user it
   * is what it was.
   */
  lemma RechargeReadBack(b: Bank, id: UserId, amount: real, other: UserId)
    requires AddBalance(b, id, amount).result.Success?
    ensures GetBalance(AddBalance(b, id, amount).bank, id) == Success(b.balances[id] + amount)
    ensures other != id ==> GetBalance(AddBalance(b, id, amount).bank, other) == GetBalance(b, other)
  {
  }

  /**
   * A charge is read back by getBalance: the balance reported afterwards is
   * the old one less the cost, and it is the balance saved in the new record.
   */
  lemma ChargeReadBack(b: Bank, id: UserId, kind: string, cost: real, amount: real, response: Response)
    requires id in b.balances && Charge(b, id, kind, cost, amount, response).Success?
    ensures var after := Charge(b, id, kind, cost, amount, response).value;
      && GetBalance(after, id) == Success(b.balances[id] - cost)
      && GetBalance(after, id) == Success(after.records[|after.records| - 1].balanceAfter)
  {
  }

  /** The service calls a client can make, with the random text supplied. */
  datatype Command =
    | Execute(user: UserId, expression: string)
    | Recharge(user: UserId, amount: real)
    | RandomString(user: UserId, random: string)
    | Balance(user: UserId)

  function Perform(b: Bank, cmd: Command, sqrt: real -> real): Bank {
    match cmd
    case Execute(id, expression) => ExecuteOperation(b, id, expression, sqrt).bank
    case Recharge(id, amount) => AddBalance(b, id, amount).bank
    case RandomString(id, random) => GenerateRandomString(b, id, random).bank
    case Balance(_) => b
  }

  function PerformAll(b: Bank, cmds: seq<Command>, sqrt: real -> real): Bank
    decreases |cmds|
  {
    if cmds == [] then b else PerformAll(Perform(b, cmds[0], sqrt), cmds[1..], sqrt)
  }

  lemma PerformKeeps(b: Bank, cmd: Command, sqrt: real -> real)
    requires NonNegative(b)
    ensures NonNegative(Perform(b, cmd, sqrt))
    ensures Perform(b, cmd, sqrt).costs == b.costs
    ensures |Perform(b, cmd, sqrt).records| >= |b.records|
    ensures Perform(b, cmd, sqrt).records[..|b.records|] == b.records
  {
    match cmd
    case Execute(id, expression) => ExecuteOperationKeeps(b, id, expression, sqrt);
    case Recharge(id, amount) => AddBalanceKeeps(b, id, amount);
    case RandomString(id, random) => GenerateRandomStringKeeps(b, id, random);
    case Balance(_) =>
  }

  /**
   * The global invariant: from non-negative balances, any sequence of calls
   * keeps every balance non-negative, never changes the costs, and only
   * appends to the record log.
   */
  lemma {:induction false} PerformAllKeeps(b: Bank, cmds: seq<Command>, sqrt: real -> real)
    requires NonNegative(b)
    ensures NonNegative(PerformAll(b, cmds, sqrt))
    ensures PerformAll(b, cmds, sqrt).costs == b.costs
    ensures |PerformAll(b, cmds, sqrt).records| >= |b.records|
    ensures PerformAll(b, cmds, sqrt).records[..|b.records|] == b.records
    decreases |cmds|
  {
    if cmds != [] {
      var b' := Perform(b, cmds[0], sqrt);
      PerformKeeps(b, cmds[0], sqrt);
      PerformAllKeeps(b', cmds[1..], sqrt);
      var e := PerformAll(b', cmds[1..], sqrt);
      assert e.records[..|b.records|] == e.records[..|b'.records|][..|b.records|];
    }
  }
}
