# Calculator: expression engine, keypad state machine and back-end arithmetic

The calculator is a single-screen React component with a small Python arithmetic
module beside it. This project models the two core files in Dafny.

- **Expression engine** (`Expression`, expression.dfy):
  - The four operators. Each has a name (`add`, `subtract`, `multiply`, `divide`) and a display symbol (`+ − × ÷`).
  - `performOperation`, the single binary step. It refuses a zero divisor.
  - `evaluateExpression`, which evaluates a token stream `number (operator number)*` in two in-place passes:
    - The first splices every multiplication and division into its value.
    - The second does the same for additions and subtractions.
    - Any error turns into 0.
  - Both passes are `while` loops over a working copy. Each is proved against an independent specification, `ExprValue`: ordinary precedence with left associativity, where the stream is split at its last additive operator and each term is folded left to right. The proof also shows that the evaluation fails exactly when some division has the literal divisor 0.
- **Number entry** (`Entry`, entry.dfy): the edits that the digit keys, the decimal point and backspace make to the number being typed. Among the properties proved:
  - the number stays a decimal literal;
  - backspace undoes a keystroke;
  - a repeated decimal point is ignored;
  - digits are appended in the order typed.
- **The screen** (`App`, app.dfy):
  - `Calculator` is a class whose five fields are the component's five pieces of state: display, expression line, pending tokens, current number and last result.
  - It has one method per handler (digit, operator, decimal point, equals, clear, backspace) and one for the key listener.
  - Each method keeps the invariant `Valid()` and states the whole new state.
  - Also here:
    - the expression line's split-on-spaces edit, with its round-trip lemmas;
    - the loop that writes the `a × b = r` trace, proved against a trace function;
    - the mapping from key names to handlers.
- **Back end** (`Backend`, backend.dfy): `add`, `subtract`, `multiply` and `divide`.
  - `divide` raises `ValueError("Cannot divide by zero")` on a zero divisor.
  - `Agreement` (agreement.dfy) proves that the front end's `performOperation` and the back end agree on every input.
- **Corrected operator entry** (`Intended`, intended.dfy): the operator handler as its comments describe it (see Findings).

`parseFloat` and `String(number)` are not modelled. They are parameters of the
`Calculator` constructor, of `EvaluateExpression` and of the scenario methods. The
general model assumes only that `String` never returns an empty string. A scenario
that continues from a result also assumes that `parseFloat` reads back the number
`String` wrote (see Left out). Numbers are mathematical reals.

On division by zero, `evaluateExpression` (frontend/src/App.jsx:86-89) catches the
error and returns 0. `handleEquals` then commits that 0 as the result: display `"0"`,
trace `a ÷ 0 = 0`. `App.DivisionByZeroGivesZero` and the last `ensures` of
`App.Calculator.Equals` state this.

## Model

| member | source | states |
|---|---|---|
| Expression.OperatorNamed | frontend/src/App.jsx:130-131 | A name is recognised as an operator exactly when it is one of the four operator names, and the recognised operator has that name. |
| Expression.OperatorSymbol | frontend/src/App.jsx:12-20 | The symbol is empty exactly for a name that is not an operator. Otherwise it is one character and never a space. |
| Expression.SymbolIsOperatorSymbol | frontend/src/App.jsx:12-20 | The symbol of a typed operator is getOperatorSymbol of its name, and the four operators show four different symbols. |
| Expression.PerformOperation | frontend/src/App.jsx:30-43 | The step fails exactly for an unknown name or a division by 0, with the matching error. A successful division returns the number that, times the divisor, gives back the dividend. |
| Expression.ApplyIsPerformOperation | frontend/src/App.jsx:30-43 | The step on a typed operator is performOperation on its name. |
| Expression.ApplyFails | frontend/src/App.jsx:38-40 | A step on one of the four operators fails only when it divides by 0, and then with the division-by-zero error. |
| Expression.Parsed | frontend/src/App.jsx:60-61 | The working copy has one cell per token: each number parsed, each operator kept. A well-formed stream gives an alternating copy. |
| Expression.FoldReduceFirst | frontend/src/App.jsx:76-79 | Replacing the first triple by its value leaves the left-to-right value unchanged. If that step fails, the whole fold fails with the same error. |
| Expression.ExprReduceAt | frontend/src/App.jsx:59-64 | Splicing the first multiplication or division (nothing but additions before it) leaves the precedence value unchanged. If the step fails, the expression fails. |
| Expression.SpliceStep | frontend/src/App.jsx:57-68 | One splice of the first pass keeps the loop's invariants (alternation, only additions before the cursor, the same precedence value), or shows that the expression fails on a zero divisor. |
| Expression.AdditiveExprIsFold | frontend/src/App.jsx:71-83 | With only additions and subtractions left, the precedence value is the left-to-right fold, which the second pass computes. |
| Expression.FoldFailsIffZeroDivisor | frontend/src/App.jsx:38-39 | Left-to-right evaluation fails exactly when some division has divisor 0, and then with the division-by-zero error. |
| Expression.ExprFailsIffZeroDivisor | frontend/src/App.jsx:86-89 | Precedence evaluation fails exactly when some division has divisor 0, so the catch-and-return-0 path is taken exactly then. |
| Expression.TripleValue | frontend/src/App.jsx:190 | A stream of one operation is worth that operation. |
| Expression.PrecedenceExamples | frontend/src/App.jsx:45-46 | 2 + 3 × 4 is 14 (where left-to-right gives 20), 8 − 2 − 3 is 3, and 4 ÷ 0 fails. |
| Expression.MultiplicativePass | frontend/src/App.jsx:55-69 | After the first pass only additive operators remain, the stream still alternates, and its precedence value equals the input's. The pass aborts only when the input's evaluation fails on a zero divisor. |
| Expression.AdditivePass | frontend/src/App.jsx:71-85 | On a stream of additions and subtractions, the second pass returns exactly the stream's precedence value. |
| Expression.EvaluateExpression | frontend/src/App.jsx:47-90 | Returns 0 for no tokens, the parsed number for one token, and otherwise the precedence value of the parsed stream, or 0 when it fails. The result is 0 whenever some division has divisor 0. |
| Entry.EraseLast | frontend/src/App.jsx:229-236 | Backspace drops exactly the last character of a number with more than one character, and otherwise leaves "0". The result is never empty and a literal stays a literal. |
| Entry.TypeDigit | frontend/src/App.jsx:104 | The typed digit becomes the last character. A lone "0" is replaced by the digit, and anything else is kept in front of it. A literal stays a literal, and backspace undoes the keystroke. |
| Entry.TypeDecimal | frontend/src/App.jsx:163-166 | Afterwards the number has a point. A number that already had one is unchanged; otherwise exactly "." is appended, a literal stays a literal, and backspace removes the point again. |
| Entry.TypeDecimalIdempotent | frontend/src/App.jsx:163 | A second decimal press changes nothing. |
| Entry.TypeDigitsLiteral | frontend/src/App.jsx:104 | Any sequence of digit keys keeps a literal a literal. |
| Entry.AppendDigits | frontend/src/App.jsx:104 | Behind anything but the lone "0", digits are appended in the order typed. |
| Entry.LeadingZeroAbsorbed | frontend/src/App.jsx:104 | A 0 typed on the initial "0" is absorbed. |
| Entry.DigitsFromZero | frontend/src/App.jsx:104 | From "0", digits that do not start with 0 come out exactly as typed. |
| App.LastSpace | frontend/src/App.jsx:138 | The position found holds a space (or is -1), and no space follows it: it is where `split(' ')` cuts off the last part. |
| App.Split | frontend/src/App.jsx:138 | `split(' ')` gives at least one part, and no part contains a space. |
| App.JoinEnds | frontend/src/App.jsx:140 | `join(' ')` starts with the first part and ends with the last, with a space in front of the last when there are several parts. |
| App.ReplaceLastPartEndsWith | frontend/src/App.jsx:137-141 | After overwriting the last part, the expression line ends with the new symbol. |
| App.JoinSplit | frontend/src/App.jsx:138-140 | Joining the parts of a split on spaces gives back the string. |
| App.SplitJoin | frontend/src/App.jsx:138-140 | Splitting a space-joined list of space-free parts gives back the parts. |
| App.ReplaceLastPartSplits | frontend/src/App.jsx:137-141 | Overwriting the last part with a space-free word changes that part and no other. |
| App.ReplaceAfterLastSpace | frontend/src/App.jsx:137-141 | On "prefix word", the update yields "prefix symbol": the prefix is kept and only the old symbol is replaced. |
| App.TraceOfSnoc | frontend/src/App.jsx:194-202 | Extending a stream by one operation extends its trace by " symbol number". |
| App.TraceOfTriple | frontend/src/App.jsx:194-202 | The trace of `a op b` is "a symbol b". |
| App.BuildTrace | frontend/src/App.jsx:193-202 | The loop writes the trace of the stream: numbers as typed, and each operator as its symbol between spaces. |
| App.KeyCommand | frontend/src/App.jsx:250-284 | Enter and = reach equals, exactly Escape, c and C reach clear, and exactly the one-character digit keys reach a digit. |
| App.KeyReachesCommand | frontend/src/App.jsx:250-284 | Every handler is reachable from some key. |
| App.Calculator.constructor | frontend/src/App.jsx:5-9 | Initial state: display "0", empty expression, no tokens, current number "0", no result. The invariant holds. |
| App.Calculator.NumberClick | frontend/src/App.jsx:93-107 | After a result, the digit alone starts a new number and the rest is cleared. Otherwise the digit is typed into the current number, which is shown, and the tokens and expression are unchanged. The invariant is kept. |
| App.Calculator.OperationClick | frontend/src/App.jsx:110-150 | The pending tokens become the number (the formatted result, the current number, or the pending number) followed by the clicked operator. A pending operator is replaced in place. The current number resets to "0" and the invariant is kept. |
| App.Calculator.DecimalClick | frontend/src/App.jsx:153-167 | After a result, starts "0." and clears the rest. Otherwise the point is added once and shown, and the tokens and expression are unchanged. |
| App.Calculator.Equals | frontend/src/App.jsx:170-210 | With nothing pending nothing changes. Otherwise the result is the precedence value of `n op m`, which equals performOperation's value or 0 on error. It is committed to the display, the current number and the last result, the trace is "n symbol m = result", and dividing by a number parsing to 0 commits 0. |
| App.Calculator.Clear | frontend/src/App.jsx:213-219 | Back to the initial state. |
| App.Calculator.Backspace | frontend/src/App.jsx:222-237 | After a result, clears. Otherwise it erases the last character of the number (never below "0") and leaves the tokens and expression unchanged. |
| App.Calculator.HandleKey | frontend/src/App.jsx:240-285 | Keeps the invariant. A key with no handler changes nothing, and a clear key resets the state. |
| App.LostOperand | frontend/src/App.jsx:130-146 | The key sequence 2 + 3 × 4 = gives 8 with the trace "2 × 4 = 8" (see Findings). |
| App.ReplacedOperator | frontend/src/App.jsx:130-141 | 5 + × 2 = gives 10: the second operator in a row replaces the first. |
| App.ChainedResult | frontend/src/App.jsx:112-118 | 5 + 3 = + 2 = gives 10. The result 8 is carried on as `String(8)` and read back with `parseFloat`, which is required to return 8. |
| App.DivisionByZeroGivesZero | frontend/src/App.jsx:86-89 | 6 ÷ 0 = commits the result 0 and shows String(0). |
| Intended.PressOperator | frontend/src/App.jsx:129-146 | Corrected operator entry. A pending stream stays well-shaped and ends in the clicked operator. After a typed number, that number and the operator are appended; otherwise only the last operator changes. |
| Intended.Finish | frontend/src/App.jsx:177-179 | The pending tokens plus the current number form a well-formed stream. |
| Intended.OperatorPressesCollapse | frontend/src/App.jsx:129-141 | Two operator presses in a row act like the second alone. |
| Intended.FeedBuildsStream | frontend/src/App.jsx:142-146 | With the correction, every number typed before an operator stays in the stream, in order. |
| Intended.KeptOperand | frontend/src/App.jsx:142-146 | With the correction, 2 + 3 × 4 = evaluates the stream 2 + 3 × 4 to 14. |
| Backend.Divide | backend/calculator.py:48-64 | Raises exactly when the divisor is 0, with the message "Cannot divide by zero". Otherwise it returns the number that, times the divisor, gives the dividend. |
| Backend.Add | backend/calculator.py:6-17 | add returns the number from which taking away either operand leaves the other. |
| Backend.Subtract | backend/calculator.py:20-31 | subtract returns the number that gives a when b is added back. |
| Backend.Multiply | backend/calculator.py:34-45 | Dividing the product by either non-zero operand gives back the other, and the product is zero exactly when an operand is. |
| Backend.SubtractUndoesAdd | backend/calculator.py:6-31 | subtract undoes add and add undoes subtract. |
| Backend.DivideUndoesMultiply | backend/calculator.py:34-64 | For a non-zero divisor, divide undoes multiply and multiply undoes divide. |
| Backend.QuotientIsUnique | backend/calculator.py:62-64 | The quotient is the unique number that gives back the dividend. |
| Backend.ZeroLaws | backend/calculator.py:6-64 | Zero is neutral for add and subtract and absorbing for multiply, and 0 divided by a non-zero number is 0. |
| Backend.AssertedSums | backend/test_calculator.py:13-31 | The addition cases of the unit tests. |
| Backend.AssertedDifferences | backend/test_calculator.py:33-50 | The subtraction cases of the unit tests. |
| Backend.AssertedProducts | backend/test_calculator.py:52-70 | The multiplication cases of the unit tests. |
| Backend.AssertedQuotients | backend/test_calculator.py:72-95 | The division cases of the unit tests: the exact ones, 1 / 3 within 0.000005 of 0.333333 (agreement to five places), and the refused zero divisor with its message. |
| Agreement.FrontAgreesWithBack | frontend/src/App.jsx:30-43 | performOperation and the back-end function for the same operator return the same number, and one fails exactly when the other does (division by 0). |

## Left out

- Rendering of the JSX and the button layout: the buttons only call the modelled handlers.
- Registration and removal of the keydown listener and `preventDefault`: only the choice of handler for a key is modelled.
- The `alert` shown when an evaluation fails: only its effect on the result (0) is modelled.
- IEEE-754 arithmetic, `parseFloat` and `String(number)`. Numbers are reals, and the two conversions are parameters. Rounding, infinities, `NaN` and `-0` are not captured; in particular `performOperation`'s `numB === 0` also catches `-0`.
- `getPrecedence` (frontend/src/App.jsx:23-27) is never called by the code; the precedence it describes is the specification function `ExprValue`.
- The unknown-operator error of `performOperation` cannot happen on the screen, because the model's tokens carry one of the four operators. It is still modelled and proved for names in `Expression.PerformOperation`.
- `Expression.EvaluateExpression`: requires a well-formed stream (or none), which is the only kind the screen passes. The code's behaviour on malformed arrays is not modelled.
- `Expression.EvaluateExpression`: parses all number tokens up front rather than as each splice reads them; with a pure `parseFloat` this gives the same values. A spliced-in result is kept as a number rather than being re-parsed.
- Chaining from a result: `handleOperationClick` stores the result as `String(lastResult)` (frontend/src/App.jsx:118), and `handleEquals` reads it back with `parseFloat`. The model does not relate `parse` and `format`, so the general handler contracts give the continued value only in terms of `parse(format(v))`. `App.ChainedResult` requires that this reads back as `v` for its one result; for IEEE-754 doubles it does, but that is not modelled.
- The text of the front end's error messages is not modelled, only which error occurs.
- `App.Calculator.HandleKey`: states only the invariant, the no-handler case and the clear case. The effect of the other keys is the contract of the handler it calls.
- `App.Calculator.Equals`: the branch for a pending stream that ends in a number (frontend/src/App.jsx:180-186) cannot be reached, because a non-empty pending stream always ends in an operator. The model shows this and does not carry that branch.
- `App.Calculator.OperationClick`: the append branch (frontend/src/App.jsx:142-146) cannot be reached for the same reason (see Findings). The first write of `[lastResult]` to the tokens (line 113) is overwritten in the same handler and has no effect.
- Batching of React state updates is not modelled: each handler reads the state as it was when the event arrived, and the model performs its writes in order. No handler reads back a field it has just written.
- api/index.py, the HTTP wrapper around the back end, is not part of this model.

## Findings

| source | as written | input that shows it | evidently intended | confidence | as-written member | corrected member |
|---|---|---|---|---|---|---|
| frontend/src/App.jsx:130-146 | Whenever tokens are pending, their last token is an operator, so the "replace the last operator" branch always fires. A number typed after an operator is silently discarded, and the append branch is dead. | Keys 2 + 3 × 4 = give 8 and the trace "2 × 4 = 8" | The stream 2 + 3 × 4, which the evaluator gives 14 under the precedence it implements | not executed | App.LostOperand | Intended.PressOperator |
