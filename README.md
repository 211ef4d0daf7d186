# Calculator engine

A model of the `Calculator` class of a browser calculator: a state machine
over four fields. `currentOperand` is the operand being typed or the last
result. `previousOperand` is the left-hand operand captured when an operator
was chosen. `operation` is the pending operator symbol. `shouldResetDisplay`
says that the next digit starts a fresh operand. Operands are kept as text.
Digit entry, delete and the decimal-point rule are exact string editing.
Arithmetic, parsing and number-to-text conversion are JavaScript floating
point, and the model keeps them abstract.

Files:

- `text.dfy` (module `Text`): counting a character, `slice(0, -1)`, `indexOf`, `split`/`join`.
- `numerics.dfy` (module `Numerics`): `Option`, the four operators, and `Numeric<V>`.
  `Numeric<V>` is a record of the number operations the engine uses: `parseFloat`,
  `=== 0`, `+ - * /`, the constant 100, `toString` and `toLocaleString`.
  `WellBehaved` states the two facts about `toString` that the invariant needs:
  the text is never empty and holds at most one decimal point.
- `engine.dfy` (module `Engine`): the four fields as a `State` value, with one transition function per operation.
  `Command`, `Step` and `Run` describe a sequence of button presses.
- `calculator.dfy` (module `CalculatorObject`): the `Calculator` class.
  It has the four fields and one method per operation, each changing the fields in place.
  Every method is proved to change the fields exactly as the matching `Engine` function does.
- `display.dfy` (module `Display`): `formatDisplayNumber`.
- `properties.dfy` (module `Properties`): lemmas that relate the operations.
  They cover idempotence, delete as an undo, the single decimal point, an invariant of every reachable state, operator chaining and the divide-by-zero reset.

Where the code and its prose description differ, the model follows the code:

- The operator symbols the code matches are `+`, `-`, `x` and `/`, not `×` and `÷`.
  Any other symbol is still stored as the pending operation, but `compute` ignores it.
- `formatDisplayNumber` reattaches `split('.')[1]`. That is the text between the first point and the next one, not all text after the first point.
  The two agree on every operand the engine can produce, because such operands have at most one point (`Properties.DisplayKeepsFraction`).
- The replace rule for a lone `"0"` does not exclude every leading zero: the `00` button turns `"0"` into `"00"`.

## Model

| member | source | states |
|---|---|---|
| Text.Count | Calculator/calculator.js:32 | the number of occurrences is at most the length, and is zero exactly when the character is absent (`includes`) |
| Text.DropLast | Calculator/calculator.js:20 | `slice(0, -1)`: the empty text stays empty; otherwise the result followed by the old last character is the old text |
| Text.Split | Calculator/calculator.js:101-102 | `split('.')` yields one more piece than there are points, and no piece contains a point |
| Text.SplitJoin | Calculator/calculator.js:101-102 | joining the pieces of `split` with the separator gives back the original text |
| Numerics.ArithOf | Calculator/calculator.js:70-90 | exactly the symbols `+`, `-`, `x`, `/` select an operator, each its own one; every other symbol hits the `default` branch |
| Engine.Clear | Calculator/calculator.js:11-15 | the result is the initial state except that `shouldResetDisplay` keeps its old value |
| Engine.Delete | Calculator/calculator.js:18-22 | no-op on `"0"`; otherwise exactly the last character is removed, and an empty result becomes `"0"`; the operand is never empty afterwards; no other field changes |
| Engine.AppendNumber | Calculator/calculator.js:25-40 | a pending reset restarts from `""`; a second `.` is refused; a non-`.` token replaces a lone `"0"`; otherwise the token is appended; the flag is false afterwards; the other fields are unchanged |
| Engine.Evaluate | Calculator/calculator.js:65-90 | unchanged exactly when an operand does not parse or the operator is unknown; a divide-by-zero exactly when the operator is `/` and the divisor is zero; otherwise the operator applied to the two parsed operands |
| Engine.Compute | Calculator/calculator.js:63-96 | no change on an unparsable operand or unknown operator; a zero divisor gives the cleared state with the flag kept; on success the result's text is the current operand, nothing is pending and the flag is set |
| Engine.ChooseOperation | Calculator/calculator.js:43-53 | no-op on an empty current operand; otherwise the operation is `symbol` and the current operand is empty; the previous operand is the old current operand, or the result of `compute` when an operand was pending |
| Engine.HandlePercent | Calculator/calculator.js:56-60 | only the current operand changes; it is left as is when it does not parse, and otherwise becomes the text of its value divided by 100 |
| CalculatorObject.Calculator.constructor | Calculator/calculator.js:3-8 | a new calculator holds `"0"`, `""`, no operation and a cleared flag |
| CalculatorObject.Calculator.Clear | Calculator/calculator.js:11-15 | the fields become `"0"`, `""` and no operation; the flag is unchanged |
| CalculatorObject.Calculator.Delete | Calculator/calculator.js:18-22 | the fields change exactly as `Engine.Delete` says |
| CalculatorObject.Calculator.AppendNumber | Calculator/calculator.js:25-40 | the fields change exactly as `Engine.AppendNumber` says |
| CalculatorObject.Calculator.ChooseOperation | Calculator/calculator.js:43-53 | the fields change exactly as `Engine.ChooseOperation` says, and the alert flag is raised exactly when the folded computation divides by zero |
| CalculatorObject.Calculator.HandlePercent | Calculator/calculator.js:56-60 | the fields change exactly as `Engine.HandlePercent` says |
| CalculatorObject.Calculator.Compute | Calculator/calculator.js:63-96 | the fields change exactly as `Engine.Compute` says, and the alert flag is raised exactly on a zero divisor under `/` |
| Display.FormatDisplayNumber | Calculator/calculator.js:99-116 | without a point, the grouped value, or `""` when it does not parse; with a point, the result starts with the grouped integer part followed by `.` |
| Display.FormatSinglePoint | Calculator/calculator.js:99-116 | with exactly one point, the result is the grouped integer part, `.`, and all of the text after the point verbatim |
| Display.FormatDropsLaterSegments | Calculator/calculator.js:101-112 | with two or more points, only the text between the first and the second point is shown after the integer part |
| Display.SplitAfterFree | Calculator/calculator.js:101-102 | splitting text whose first point follows a point-free prefix yields that prefix, then the pieces of the rest |
| Properties.ClearIdempotent | Calculator/calculator.js:11-15 | clearing twice gives the same state as clearing once |
| Properties.DeleteRepeatedlySettlesAtZero | Calculator/calculator.js:18-22 | pressing delete at least once and at least as often as the operand is long ends at `"0"` with the other fields unchanged |
| Properties.DeleteUndoesAppend | Calculator/calculator.js:18-39 | deleting right after appending one non-`.` character to an operand being edited restores the state |
| Properties.DoubleZeroKeepsLeadingZero | Calculator/calculator.js:35-36 | `00` on a lone `"0"` gives `"00"`, and a following `5` gives `"005"` |
| Properties.AppendNumberKeepsOnePoint | Calculator/calculator.js:31-39 | appending a digit, `00` or `.` to an operand with at most one point leaves at most one point |
| Properties.DropLastCount | Calculator/calculator.js:20 | removing the last character never adds a point |
| Properties.InitialConsistent | Calculator/calculator.js:3-8 | the constructed state satisfies the reachable-state invariant |
| Properties.ComputeKeepsOperand | Calculator/calculator.js:63-96 | `compute` preserves the reachable-state invariant |
| Properties.StepKeepsConsistent | Calculator/calculator.js:134-179 | every button press preserves the invariant: at most one point per operand, an operand is pending exactly when an operation is, and the current operand is empty only while an operation is pending |
| Properties.RunKeepsConsistent | Calculator/calculator.js:134-179 | any sequence of button presses preserves that invariant |
| Properties.ChainingFoldsPendingOperation | Calculator/calculator.js:43-53 | `2 + 3 + 4 =` computes `2 + 3` when the second `+` is chosen and ends showing `(2 + 3) + 4`, nothing pending, reset flag set |
| Properties.DivideByZeroResets | Calculator/calculator.js:80-85 | `8 / 0 =` raises the alert and returns to the freshly constructed state |
| Properties.DisplayKeepsFraction | Calculator/calculator.js:99-116 | in a reachable state, an operand with a point is displayed as its grouped integer part, `.`, and every digit typed after the point |

## Left out

- `updateDisplay`, the DOM lookups, the event listeners and the initial render (lines 119-182) are UI and I/O. `Engine.Step` and `Engine.Run` keep only which operation each button runs.
- The `alert("Cannot divide by zero!")` browser dialog is modelled as the `alerted` result of `Compute` and `ChooseOperation`.
- Floating-point behaviour is not modelled. This covers `parseFloat`, IEEE `+ - * /`, `=== 0`, `Number.prototype.toString` and `toLocaleString('en', { maximumFractionDigits: 0 })`, which are the fields of `Numeric<V>`. No result is proved at the digit level, such as `2+3+4` showing `"9"` or `50%` showing `"0.5"`.
- Properties.ChainingFoldsPendingOperation: it assumes that `parseFloat` reads back the text `toString` produced for `2 + 3`, a fact about JavaScript numbers that the abstract model does not derive.
- Properties.StepKeepsConsistent: it assumes number buttons send only a digit, `00` or `.`. The button labels come from HTML that is not part of this model.
- The `toString()` calls on values that are already strings (lines 20, 38) are the identity and are not modelled separately.
