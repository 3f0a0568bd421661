# Risk/reward calculator — Dafny model

This project models the logic of a one-page stock trading risk/reward calculator. The user types a
draft position into five inputs: symbol, quantity, entry price, stop-loss and target price.
"Add Position" records the draft in a list, together with five derived metrics:

- the reward-to-risk ratio (R:R);
- the risk amount and the reward amount;
- the risk percentage and the reward percentage.

A delete button on each row removes that position.

The project has four modules:

- `Numbers` (numbers.dfy): the JavaScript number operations the formulas rely on. These are
  `Math.abs`, division and multiplication by 100, and `toFixed(2)`. Division by zero gives
  `Infinity` or `NaN` rather than an error, so a number is `Finite(value)`, `Infinity`,
  `MinusInfinity` or `NaN`. `toFixed(2)` gives a sign and a whole number of hundredths,
  or the text of a non-finite value.
- `Metrics` (metrics.dfy): the five `calculate*` formulas. Each percentage and ratio is given twice:
  - as the text the calculator stores (`RiskReward`, `RiskPercentage`, `RewardPercentage`), which is
    defined for every input;
  - as a real quotient (`RewardToRisk`, `RiskPercent`, `RewardPercent`), which is defined where the
    divisor is non-zero.
- `Ledger` (ledger.dfy): the form state, which is a draft of five text fields and the list of
  recorded positions. It also holds the three handlers `handleInputChange`, `handleAddPosition` and
  `handleDelete`, written as pure state transitions.
- `Calculator` (calculator.dfy): user events dispatched to the handlers. It proves that every
  recorded position is always built from a complete draft and carries that draft's metrics.

Prices are exact reals and quantities are integers. `parseFloat` and `parseInt` are a `Parser`
parameter: two total functions from text to numbers.

Two facts about the code that a reader might not expect:

- A recorded position keeps the draft's text for symbol, prices and quantity. Line 68 spreads the
  draft into the record, and the parsed numbers are not stored.
- For entry 100, stop 90 and target 130, R:R is 30 / 10 = "3.00"; see `Metrics.WorkedExample`.

## Model

| member | source | states |
|---|---|---|
| `Numbers.Abs` | risk-reward-calculator.tsx:18-19 | `Math.abs`: the result is non-negative and is the argument or its negation |
| `Numbers.Divide` | risk-reward-calculator.tsx:20 | JavaScript division: finite exactly when the divisor is non-zero, and then the quotient times the divisor is the dividend; for a zero divisor, `Infinity`, `-Infinity` or `NaN` according to the dividend's sign |
| `Numbers.Scale` | risk-reward-calculator.tsx:32 | multiplying by 100 keeps finiteness, divides back to the original value, and leaves `Infinity` and `NaN` as they are |
| `Numbers.RoundHalfUp` | risk-reward-calculator.tsx:20 | the rounding toFixed applies to the magnitude: the integer n with n − ½ ≤ y < n + ½, so y = 2.5 gives 3; non-negative for a non-negative argument |
| `Numbers.RoundHalfUpIsNearest` | risk-reward-calculator.tsx:20 | the rounded value is at least as near as any other integer, and of two equally near integers it is the larger (toFixed's selection rule) |
| `Numbers.RoundHalfUpMonotone` | risk-reward-calculator.tsx:20 | rounding never decreases as the value grows |
| `Numbers.RoundHalfUpOfInteger` | risk-reward-calculator.tsx:20 | an integer rounds to itself |
| `Numbers.ToFixed2` | risk-reward-calculator.tsx:20 | `toFixed(2)` gives digits exactly for finite values, within half a hundredth of the value and with its sign, the hundredths being the rounding of the magnitude times 100; otherwise "Infinity", "-Infinity" or "NaN" matching the value |
| `Numbers.ToFixed2IsNearest` | risk-reward-calculator.tsx:20 | the hundredths shown are nearest to the magnitude times 100 among all counts, and of two equally near counts the larger |
| `Numbers.ToFixed2Tie` | risk-reward-calculator.tsx:32 | an exact half-hundredth goes to the larger count: 0.125 shows as 0.13 and −0.125 as −0.13 |
| `Numbers.ToFixed2Exact` | risk-reward-calculator.tsx:32 | a value that is a whole number of hundredths is shown exactly |
| `Numbers.ToFixed2Negate` | risk-reward-calculator.tsx:32 | negating a non-zero value flips the sign of its text and keeps its digits |
| `Metrics.RiskAmount` | risk-reward-calculator.tsx:23-25 | the risk amount is non-negative for a non-negative quantity, and zero exactly when the stop equals the entry or the quantity is zero |
| `Metrics.RewardAmount` | risk-reward-calculator.tsx:27-29 | the reward amount is non-negative for a non-negative quantity, and zero exactly when the target equals the entry or the quantity is zero |
| `Metrics.RewardToRisk` | risk-reward-calculator.tsx:17-20 | for a stop different from the entry, the ratio is non-negative and is the number that, times the risk per share, gives the reward per share |
| `Metrics.RiskReward` | risk-reward-calculator.tsx:17-21 | the stored R:R is the ratio to two decimals and never negative. It is "Infinity" when stop equals entry but target does not, and "NaN" when all three are equal |
| `Metrics.RiskPercent` | risk-reward-calculator.tsx:31-33 | for a non-zero entry, the percentage times the entry is 100 times the risk per share, and it is non-negative for a positive entry |
| `Metrics.RewardPercent` | risk-reward-calculator.tsx:35-37 | for a non-zero entry, the percentage times the entry is 100 times the reward per share, and it is non-negative for a positive entry |
| `Metrics.RiskPercentage` | risk-reward-calculator.tsx:31-33 | the stored risk % is the percentage to two decimals, non-negative digits for a positive entry. A zero entry gives "Infinity", or "NaN" if the stop is zero too |
| `Metrics.RewardPercentage` | risk-reward-calculator.tsx:35-37 | the stored reward % is the percentage to two decimals, non-negative digits for a positive entry. A zero entry gives "Infinity", or "NaN" if the target is zero too |
| `Metrics.StopReflectionInvariant` | risk-reward-calculator.tsx:17-33 | mirroring the stop through the entry (stop ↦ 2·entry − stop) changes neither the risk amount, the R:R nor the risk % |
| `Metrics.TargetReflectionInvariant` | risk-reward-calculator.tsx:17-37 | mirroring the target through the entry changes neither the reward amount, the R:R nor the reward % |
| `Metrics.RatioIsAmountQuotient` | risk-reward-calculator.tsx:17-29 | for entry ≠ stop and a non-zero quantity, the risk amount is non-zero and the ratio equals reward amount / risk amount: the quantity cancels |
| `Metrics.RiskAmountIsPercentOfOutlay` | risk-reward-calculator.tsx:23-33 | the risk amount is the risk percentage of entry × quantity |
| `Metrics.RewardAmountIsPercentOfOutlay` | risk-reward-calculator.tsx:27-37 | the reward amount is the reward percentage of entry × quantity |
| `Metrics.WorkedExample` | risk-reward-calculator.tsx:17-37 | entry 100, stop 90, target 130, quantity 10 give R:R "3.00", risk 100, reward 300, risk "10.00"%, reward "30.00"% |
| `Ledger.DraftExtensionality` | risk-reward-calculator.tsx:9-15 | a draft is determined by the text of its five inputs |
| `Ledger.CompleteMeansNoEmptyField` | risk-reward-calculator.tsx:57-58 | the guard of the add handler passes exactly when no input is empty |
| `Ledger.MakePosition` | risk-reward-calculator.tsx:62-74 | the new record carries the draft's text and the five metrics of the numbers that text parses to |
| `Ledger.InputChange` | risk-reward-calculator.tsx:48-54 | the named input takes the new value, the other four keep theirs, and the list of positions is untouched |
| `Ledger.InputChangeDetermined` | risk-reward-calculator.tsx:48-54 | the contract of `InputChange` fixes its result: any state with the new value in the named input, the old text in the other four and the same positions is that result |
| `Ledger.InputChangeUndo` | risk-reward-calculator.tsx:48-54 | typing a field's old text back restores the whole state |
| `Ledger.InputChangeLastWins` | risk-reward-calculator.tsx:48-54 | of two edits of one field only the last counts |
| `Ledger.InputChangeCommutes` | risk-reward-calculator.tsx:48-54 | edits of two different fields commute |
| `Ledger.AddPosition` | risk-reward-calculator.tsx:56-84 | with an empty field (stated both via the guard and per named input), list and draft are unchanged. Otherwise the list grows by one, earlier records are unchanged, and the new last record carries the draft and its metrics. The draft is then cleared |
| `Ledger.AddPositionTwice` | risk-reward-calculator.tsx:56-84 | a second press right after the first changes nothing |
| `Ledger.KeepOthers` | risk-reward-calculator.tsx:87 | the filter `(_, i) => i !== index` drops at most one element, returns the list unchanged when the index is outside it, and keeps only elements of the list |
| `Ledger.KeepOthersSplice` | risk-reward-calculator.tsx:87 | the index filter removes the one element at that index when it is in range and keeps the list whole otherwise |
| `Ledger.Remove` | risk-reward-calculator.tsx:86-88 | in range, the list is one shorter, earlier elements stay, later elements move down by one, and exactly one copy of the removed element is gone. Out of range, the list is unchanged |
| `Ledger.Delete` | risk-reward-calculator.tsx:86-88 | the delete handler removes the position at the index as `Remove` does and leaves the draft alone |
| `Ledger.DeleteUndoesAdd` | risk-reward-calculator.tsx:56-88 | after any press of "Add Position", deleting at the old length restores the previous list (a press that added nothing leaves that index out of range) |
| `Calculator.Step` | risk-reward-calculator.tsx:97-180 | typing leaves the list alone and deleting leaves the draft alone. Adding with an incomplete draft changes nothing. No event grows the list by more than one |
| `Calculator.StepKeepsConsistent` | risk-reward-calculator.tsx:56-88 | every handler keeps each listed position complete and carrying the metrics of its own text |
| `Calculator.RunKeepsConsistent` | risk-reward-calculator.tsx:56-88 | the same holds after any sequence of user actions |
| `Calculator.RunFromInitialConsistent` | risk-reward-calculator.tsx:8-88 | starting from the empty draft and empty list, after any sequence of user actions every listed position was built from a complete draft and carries the metrics of its own text |
| `Calculator.RunAddsAtMostOnePerPress` | risk-reward-calculator.tsx:56-88 | the list never grows by more than the number of presses of "Add Position" |

## Left out

- Rendering (lines 90-189): the card, the inputs, the table, the styling and the `Trash2` icon are
  presentation only. The event wiring those lines set up is kept, in `Calculator.Step`.
- `formatIndianRupees` (lines 39-46): it calls `Intl.NumberFormat`, a foreign locale library, so
  currency grouping and the rupee symbol are not modelled.
- Numbers.ToFixed2: it gives the sign and count of hundredths of `toFixed(2)`, not the digit
  string. The exponential form `toFixed` uses for magnitudes of 10^21 and above is not modelled.
- `parseFloat` / `parseInt` (lines 62-65): these are foreign parsers, given as the `Parser`
  parameter. The `NaN` they return for text that is not a number is not modelled.
- Metrics.RewardToRisk, Metrics.RiskPercent, Metrics.RewardPercent: these require a non-zero
  divisor. The zero-divisor results the code stores ("Infinity", "NaN") are stated by
  `Metrics.RiskReward`, `Metrics.RiskPercentage` and `Metrics.RewardPercentage`.
- IEEE-754 details: binary rounding, overflow to `Infinity`, and the sign of zero are not modelled.
  An entry typed as "-0" would yield "-Infinity" in the code.
- React `useState` mechanics: `handleAddPosition` reads the draft captured at the last render.
  The model assumes each event sees the latest state.
- `handleInputChange` with an input name other than the five: no input on the form has one, so
  `Field` lists just the five names.
