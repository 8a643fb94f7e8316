# Expression evaluation and balance ledger of the operations service

This project models the core of a small arithmetic-as-a-service backend in Dafny and proves properties of that model. Users hold a balance. Each arithmetic expression they submit is evaluated and charged at the cost of its operation type. A random string can also be bought at a fixed cost.

Three source classes are modelled:

- `ExpressionEvaluator` turns an infix expression into postfix form with the Shunting-Yard algorithm (`toPostfix`), then evaluates the postfix form on a value stack (`evaluate`).
  - The tokenizer splits on `+ - * / ( )` and the space character and keeps the delimiters as tokens. Tabs and other control characters stay inside pieces until `trim` removes them at the ends.
  - Numbers follow `\d+(\.\d+)?`.
  - `sqrt` is a prefix function.
- `OperationService` finds the user and evaluates the expression. It then detects the operation type from the raw text, looks up that type's cost, checks and deducts the balance, and saves a record. `generateRandomString` applies the same charge with the `random-string` cost.
- `UserService` looks users up by id, reads balances and adds recharges.

Modules:

| module | file | what it holds |
|---|---|---|
| `Wrappers` | wrappers.dfy | `Result` and `Option` with early return |
| `Syntax` | syntax.dfy | tokens, the numeral pattern, the precedence table and the error kinds |
| `Lexer` | lexer.dfy | `StringTokenizer` with returned delimiters, `String.trim`, token classification |
| `ShuntingYard` | shunting_yard.dfy | one loop iteration of `toPostfix` (`Step`), the loop (`Run`), the final drain (`Finish`) |
| `PostfixEvaluator` | postfix_evaluator.dfy | the postfix string, its re-split with `split("\\s")`, the evaluation loop |
| `ConversionTheory` | conversion_theory.dfy | the exact set of inputs `toPostfix` accepts, described without the operator stack |
| `ExpressionTheory` | expression_theory.dfy | arithmetic trees with a reference evaluator; end-to-end agreement of `evaluate` with it |
| `Chains` | chains.dfy | unparenthesised `a o b` and `a o1 b o2 c`: precedence and left associativity |
| `Quirks`, `Rejections` | quirks.dfy, rejections.dfy | each rejection path of the two stages, for whole families of inputs |
| `EdgeCases` | edge_cases.dfy | concrete expressions and their results |
| `Ledger` | ledger.dfy | the user map, the cost map and the record log; the service calls and their invariant |
| `ServiceExamples` | service_examples.dfy | concrete service calls on a one-user ledger |

Representation choices:

- **Stacks.** The operator stack and the value stack are sequences with the top at index 0.
- **Errors.** Every exception becomes a `Failure` that carries a constructor of `ExprError` or `ServiceError`, one per exception class and message, with evaluator errors wrapped in `InvalidExpression`. `OperationCostMissing` and `RandomStringCostMissing` carry the same message and differ only in the exception class.
- **Ledger after a call.** Every service call returns the ledger as it is after the call. "A failed call changes nothing" is then an ordinary postcondition.

Behaviour of the code that the model keeps:

- An empty or all-blank expression is rejected with "ends with an operator": the flag `lastTokenWasOperator` starts true (ExpressionEvaluator.java:26) and nothing resets it before the check at ExpressionEvaluator.java:66-68. No "empty expression" error exists.
- The conversion flag starts out as "an operand is expected". So a leading minus (`-5`, `(-5)`) is rejected as "consecutive operators". No negative literal can be written.
- The converter accepts `5 3`, `(2)3` and `(5 +)`. The evaluator then rejects them with "too many values" or "insufficient values for operator".
- `()` converts to an empty postfix string. Its re-split gives one empty piece, so the expression fails with "Invalid token in postfix: " and an empty token.
- `sqrt()` converts to a lone `sqrt` and fails with "no value for sqrt".
- Zero values left at the end of evaluation is reported as "too many values", because the check is `size != 1` (ExpressionEvaluator.java:119-121).
- The operation type is detected from the raw text with a fixed priority: `*`, `/`, `+`, `-`, `sqrt`. So `2 * 3 + 4` is charged as a multiplication. An expression without an operator, such as `5`, is evaluated first and then refused as an unknown operation.

## Model

Source paths are relative to the repository root.

| member | source | states |
|---|---|---|
| Syntax.PrecedenceOrder | src/main/java/com/challenge/operations/util/ExpressionEvaluator.java:12-19 | `+` and `-` rank 1, `*` and `/` rank 2, `sqrt` ranks 3, and `(`, `)` and every number rank -1; so `(` ranks below every binary operator, `sqrt` above every one, and `* /` above `+ -` |
| Lexer.Tokenize | src/main/java/com/challenge/operations/util/ExpressionEvaluator.java:25 | the tokens concatenate back to the input; each is one delimiter or a maximal run of non-delimiters, with no two runs adjacent |
| Lexer.TokenizeUnique | src/main/java/com/challenge/operations/util/ExpressionEvaluator.java:25 | any segmentation with those three properties is the one the tokenizer returns, so the three properties define it |
| Lexer.TokenizeAppend | src/main/java/com/challenge/operations/util/ExpressionEvaluator.java:25 | tokenizing two texts joined at a delimiter gives the two token lists concatenated |
| Lexer.Trim | src/main/java/com/challenge/operations/util/ExpressionEvaluator.java:29-30 | the result is a slice of the piece with only characters up to U+0020 cut off before and after it; it is empty iff every character is such; otherwise it starts and ends with a character above U+0020; a piece without such ends is unchanged |
| Lexer.Classify | src/main/java/com/challenge/operations/util/ExpressionEvaluator.java:29-63 | a trimmed piece is skipped iff empty; it is a number iff it matches `\d+(\.\d+)?`; a recognised token has the piece as its spelling; anything else is reported with its own text |
| Lexer.ClassifyLexeme | src/main/java/com/challenge/operations/util/ExpressionEvaluator.java:32-50 | classifying a token's spelling gives that token back |
| Lexer.ScanAppend | src/main/java/com/challenge/operations/util/ExpressionEvaluator.java:25-30 | scanning two texts joined at a delimiter gives the two item lists concatenated |
| ShuntingYard.Step | src/main/java/com/challenge/operations/util/ExpressionEvaluator.java:29-63 | an unknown piece fails with its text; a blank changes nothing; an operator fails (consecutive operators) iff an operand is expected; `)` fails (mismatched) iff no `(` is on the stack; numbers, `sqrt` and `(` never fail |
| ShuntingYard.StepGood | src/main/java/com/challenge/operations/util/ExpressionEvaluator.java:42-59 | each iteration keeps the loop invariant: no parenthesis reaches the output, and only operators, `sqrt` and `(` are ever on the stack (a `)` is never pushed) |
| ShuntingYard.StepConserves | src/main/java/com/challenge/operations/util/ExpressionEvaluator.java:33-59 | each iteration moves tokens between input, stack and output without losing or inventing any; only parentheses disappear |
| ShuntingYard.StepNumbers | src/main/java/com/challenge/operations/util/ExpressionEvaluator.java:32-34 | each iteration appends the numbers it reads to the output in reading order |
| ShuntingYard.Run | src/main/java/com/challenge/operations/util/ExpressionEvaluator.java:28-64 | the whole loop keeps that invariant |
| ShuntingYard.RunConserves | src/main/java/com/challenge/operations/util/ExpressionEvaluator.java:28-64 | over the whole loop, output plus stack is the input's multiset of non-parenthesis tokens |
| ShuntingYard.RunNumbers | src/main/java/com/challenge/operations/util/ExpressionEvaluator.java:28-64 | over the whole loop, the numbers reach the output in input order |
| ShuntingYard.Finish | src/main/java/com/challenge/operations/util/ExpressionEvaluator.java:66-76 | ends with an operator when an operand is still expected; otherwise fails (mismatched) iff a parenthesis is left on the stack; on success the stack is appended top first |
| ShuntingYard.ToPostfix | src/main/java/com/challenge/operations/util/ExpressionEvaluator.java:22-79 | the postfix holds no parenthesis, is a permutation of the input's other tokens, and keeps the numbers in input order |
| ConversionTheory.ToPostfixAccepts | src/main/java/com/challenge/operations/util/ExpressionEvaluator.java:22-79 | conversion succeeds iff every piece is a valid token, no operator stands where an operand is expected, every `)` closes an open `(`, and the input ends on an operand with all parentheses closed (both directions) |
| PostfixEvaluator.SplitRender | src/main/java/com/challenge/operations/util/ExpressionEvaluator.java:33-88 | writing the postfix tokens with trailing blanks and splitting on whitespace gives back their spellings; an empty postfix gives one empty piece |
| PostfixEvaluator.EvalWord | src/main/java/com/challenge/operations/util/ExpressionEvaluator.java:89-116 | a number pushes its decimal value; an operator needs two values, fails on division by exactly zero, and otherwise replaces the top `b` and the value `a` below it by `a o b`; `sqrt` fails with "no value for sqrt" iff the stack is empty and otherwise replaces the top with its root; anything else is an invalid postfix token; the rest of the stack is untouched |
| PostfixEvaluator.EvalWordsAppend | src/main/java/com/challenge/operations/util/ExpressionEvaluator.java:88-117 | evaluating two piece lists in a row is evaluating the second on the stack the first leaves |
| PostfixEvaluator.EvalPostfix | src/main/java/com/challenge/operations/util/ExpressionEvaluator.java:86-123 | a loop failure is passed on; after the loop the result is the single value left, and any other number of values fails with "too many values" |
| PostfixEvaluator.Evaluate | src/main/java/com/challenge/operations/util/ExpressionEvaluator.java:83-85 | a conversion failure is the evaluation's failure, unchanged |
| ExpressionTheory.EvalPostOrder | src/main/java/com/challenge/operations/util/ExpressionEvaluator.java:88-117 | evaluating a tree's postfix order pushes that tree's reference value, or stops with its error |
| ExpressionTheory.ToPostfixParenthesized | src/main/java/com/challenge/operations/util/ExpressionEvaluator.java:22-79 | a tree printed with every operation in parentheses converts to the tree's postfix order |
| ExpressionTheory.EvaluateParenthesized | src/main/java/com/challenge/operations/util/ExpressionEvaluator.java:83-127 | evaluating that text gives the reference value of the tree, including the division-by-zero error |
| Chains.ToPostfixSpaced | src/main/java/com/challenge/operations/util/ExpressionEvaluator.java:22-79 | `a o b` converts to `a b o` |
| Chains.EvaluateSpaced | src/main/java/com/challenge/operations/util/ExpressionEvaluator.java:83-127 | `a o b` evaluates like the tree `o(a, b)` |
| Chains.ToPostfixHigherFirst | src/main/java/com/challenge/operations/util/ExpressionEvaluator.java:42-45 | when the first operator ranks at least as high, `a o1 b o2 c` converts to `a b o1 c o2`: left association among equals |
| Chains.ToPostfixLowerFirst | src/main/java/com/challenge/operations/util/ExpressionEvaluator.java:42-45 | when the second operator ranks higher, it converts to `a b c o2 o1` |
| Chains.EvaluateHigherFirst | src/main/java/com/challenge/operations/util/ExpressionEvaluator.java:12-127 | in that case the value is that of `o2(o1(a, b), c)` |
| Chains.EvaluateLowerFirst | src/main/java/com/challenge/operations/util/ExpressionEvaluator.java:12-127 | in that case the value is that of `o1(a, o2(b, c))` |
| Quirks.BlankRejected | src/main/java/com/challenge/operations/util/ExpressionEvaluator.java:26-68 | an empty or all-blank expression fails with "ends with an operator" |
| Quirks.LeadingOperatorRejected | src/main/java/com/challenge/operations/util/ExpressionEvaluator.java:26-41 | an expression starting with a binary operator fails with "consecutive operators" |
| Quirks.OperatorAfterOpenRejected | src/main/java/com/challenge/operations/util/ExpressionEvaluator.java:39-49 | a binary operator right after a leading `(` fails with "consecutive operators" |
| Quirks.MinusFiveRejected | src/main/java/com/challenge/operations/util/ExpressionEvaluator.java:26-41 | `-5` is rejected: there are no negative literals |
| Rejections.TrailingOperatorRejected | src/main/java/com/challenge/operations/util/ExpressionEvaluator.java:66-68 | `a o` fails with "ends with an operator" |
| Rejections.UnclosedRejected | src/main/java/com/challenge/operations/util/ExpressionEvaluator.java:70-74 | `(a o b` fails with "mismatched parentheses" when the stack is drained |
| Rejections.LeadingCloseRejected | src/main/java/com/challenge/operations/util/ExpressionEvaluator.java:50-56 | an expression starting with `)` fails with "mismatched parentheses" |
| Rejections.InvalidWordRejected | src/main/java/com/challenge/operations/util/ExpressionEvaluator.java:61-63 | a leading word that is neither a numeral nor `sqrt` fails with "Invalid token" and that word |
| Rejections.NotNumbers | src/main/java/com/challenge/operations/util/ExpressionEvaluator.java:32 | `2x`, `1.` and `.5` are not numbers and are rejected as invalid tokens |
| Rejections.JuxtaposedNumbers | src/main/java/com/challenge/operations/util/ExpressionEvaluator.java:119-121 | `a b` converts to `a b` and fails with "too many values" |
| Rejections.GroupThenNumber | src/main/java/com/challenge/operations/util/ExpressionEvaluator.java:119-121 | `(a)b` converts to `a b` and fails with "too many values" |
| Rejections.UnfinishedGroup | src/main/java/com/challenge/operations/util/ExpressionEvaluator.java:92-94 | `(a o)` converts to `a o` and fails with "insufficient values for operator" |
| Rejections.EmptyRoot | src/main/java/com/challenge/operations/util/ExpressionEvaluator.java:108-111 | `sqrt()` converts to `sqrt` and fails with "no value for sqrt" |
| Rejections.EmptyParentheses | src/main/java/com/challenge/operations/util/ExpressionEvaluator.java:88-115 | `()` converts to an empty postfix and fails as an invalid postfix token with empty text |
| EdgeCases.TimesBeforePlus | src/main/java/com/challenge/operations/util/ExpressionEvaluator.java:42-45 | `2 * 3 + 4` converts to `2 3 * 4 +` and evaluates to 10 |
| EdgeCases.PlusThenTimes | src/main/java/com/challenge/operations/util/ExpressionEvaluator.java:42-45 | `2 + 3 * 4` converts to `2 3 4 * +` and evaluates to 14 |
| EdgeCases.MinusLeftAssociative | src/main/java/com/challenge/operations/util/ExpressionEvaluator.java:42-44 | `8 - 3 - 2` evaluates to 3 |
| EdgeCases.DivideLeftAssociative | src/main/java/com/challenge/operations/util/ExpressionEvaluator.java:42-44 | `8 / 4 / 2` evaluates to 1 |
| EdgeCases.TenByZero | src/main/java/com/challenge/operations/util/ExpressionEvaluator.java:101-104 | `10 / 0` fails with "division by zero" |
| EdgeCases.RootOfSixteen | src/main/java/com/challenge/operations/util/ExpressionEvaluator.java:35-59 | `sqrt(16)` converts to `16 sqrt` and evaluates to the root of 16 |
| Ledger.FindById | src/main/java/com/challenge/operations/service/UserService.java:30-33 | succeeds iff the id is known, with that user's balance; otherwise "user not found" |
| Ledger.GetBalance | src/main/java/com/challenge/operations/service/UserService.java:89-96 | the same: the stored balance, or "user not found" |
| Ledger.AddBalance | src/main/java/com/challenge/operations/service/UserService.java:53-66 | a non-positive amount fails before the lookup; success iff the amount is positive and the user is known; success adds the amount to that user only, and failure changes nothing |
| Ledger.RechargeReadBack | src/main/java/com/challenge/operations/service/UserService.java:53-96 | after a recharge, getBalance reports the old balance plus the amount, and every other user's balance as before |
| Ledger.DetectOperationType | src/main/java/com/challenge/operations/service/OperationService.java:91-105 | the result is one of the five operation types; failure is "invalid operation" |
| Ledger.DetectByPriority | src/main/java/com/challenge/operations/service/OperationService.java:91-105 | detection succeeds iff some marker occurs in the text; the type found is that of the first marker in priority order that occurs |
| Ledger.ContainsOccurs | src/main/java/com/challenge/operations/service/OperationService.java:92-100 | the substring test holds iff the pattern occurs at some position |
| Ledger.Charge | src/main/java/com/challenge/operations/service/OperationService.java:63-76 | succeeds iff the balance covers the cost; deducts exactly the cost from that user; appends one record with the new balance |
| Ledger.ChargeReadBack | src/main/java/com/challenge/operations/service/OperationService.java:71-76 | after a charge, getBalance reports the old balance less the cost, which is the balance saved in the new record |
| Ledger.ExecuteOperation | src/main/java/com/challenge/operations/service/OperationService.java:49-79 | the checks fail in source order: an unknown user, then an evaluation failure (passed on), then no operation type in the text, then no cost for that type, then a balance below the cost; success iff none of these applies; success returns the value, deducts the cost and saves one record; failure changes nothing |
| Ledger.GenerateRandomString | src/main/java/com/challenge/operations/service/OperationService.java:115-138 | the checks fail in source order: an unknown user, then a missing random-string cost, then a balance below that cost; success iff none applies; success deducts it and saves one record of amount zero holding the string; failure changes nothing |
| Ledger.PerformAllKeeps | src/main/java/com/challenge/operations/service/OperationService.java:49-138 | any sequence of service calls keeps every balance non-negative and the costs unchanged, and only appends to the record log |
| ServiceExamples.ChargedByPriority | src/main/java/com/challenge/operations/service/OperationService.java:49-105 | `2 * 3 + 4` returns 10 and is charged at the multiplication cost |
| ServiceExamples.NumberWithoutOperation | src/main/java/com/challenge/operations/service/OperationService.java:54-58 | `5` evaluates but is refused as an unknown operation, and nothing is charged |
| ServiceExamples.DivisionByZeroNotCharged | src/main/java/com/challenge/operations/service/OperationService.java:50-54 | `10 / 0` is refused with the evaluator's error, and nothing is charged |
| ServiceExamples.InsufficientBalanceNotCharged | src/main/java/com/challenge/operations/service/OperationService.java:66-68 | a balance below the cost refuses the call, and nothing is charged |
| ServiceExamples.RechargeAdds | src/main/java/com/challenge/operations/service/UserService.java:53-66 | a recharge of 50 raises 100 to 150; a zero recharge or an unknown user is refused, the amount check first |
| ServiceExamples.RandomStringCharged | src/main/java/com/challenge/operations/service/OperationService.java:115-138 | a random string costs 2 and records amount zero; a low balance or a missing cost refuses it |

## Left out

- **Floating point.** Values are exact reals, not IEEE doubles. NaN, infinities, rounding, and `BigDecimal.valueOf` failing on a non-finite result are not modelled. Division by zero is the exact test `b == 0`.
- **`Math.sqrt`** is a parameter `real -> real`. No property of the square root is assumed.
- **Exception messages** are modelled as error kinds. The full text, such as "Invalid token: " followed by the token, is not built.
- **The `EmptyStackException` handler** (ExpressionEvaluator.java:124-126) has no counterpart. Every pop in the model is guarded by the size checks that precede it, so that handler cannot be reached.
- **Dead `user == null` branches.** UserService.java:59-61 and 91-93 cannot be reached, because `findById` already fails for an unknown id.
- **Persistence.** Repositories, `updateUser`, `recordService.save`, transactions, controllers, JWT and security are left out. The repositories are maps and the saved records a sequence.
- **`findByUsername` and `getAuthenticatedUser`** read the security context and are not part of this model.
- **Random strings.** `RandomStringGenerator` and the configured string length are not part of this model. The generated text is a parameter of `GenerateRandomString`.
- **Record response text.** A record's response is kept as the value or the string, not as the formatted "Result: …" text.
- PostfixEvaluator.Evaluate: its own contract only states that conversion failures propagate.
  - Agreement with the reference evaluator is proved for fully parenthesised trees (`ExpressionTheory.EvaluateParenthesized`).
  - It is also proved for unparenthesised chains of one and two operators (`Chains`).
  - It is not proved for arbitrary infix text with mixed grouping.
- ShuntingYard.ToPostfix: its contract states conservation of tokens and the order of numbers, not the complete postfix order for every input. The full order is proved for the families in `ExpressionTheory` and `Chains`.
