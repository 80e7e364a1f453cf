# Calculator state logic, modelled in Dafny

This project models the state logic of the `Calculator` React component
(`calculator.tsx`): the text rewrite that turns a calculator expression into
JavaScript (`processScientificFunctions`), the history log that merges
consecutive identical calculations into one entry with a repeat count, and the
session state machine over input text, displayed result and history driven by
`calculate`, `handleButtonClick`, `handleHistoryItemClick` and `clearHistory`.

Modules, one per concern:

- `Optional` (`optional.dfy`): the `Option` type.
- `TextReplace` (`text_replace.dfy`): `ReplaceAll`, the behaviour of
  `String.prototype.replace` with a global regular expression whose pattern is
  a plain literal (leftmost, non-overlapping matches; replacement text is never
  rescanned) and whose replacement text holds no `$` substitution pattern
  (`$&`, `$$`, `$1` and the like; none of the ten replacement texts has one),
  and `Split`/`Join`, an independent description of the same operation.
- `Scientific` (`scientific.dfy`): `Transform` is `processScientificFunctions`,
  the ten replacements chained in source order (written as two functions of
  five steps each); `Rules` holds the same chain as a table, over which the
  general lemmas are proved.
- `JsString` (`js_string.dfy`): `trim()` with the ECMAScript white-space set,
  and `slice(0, -1)`.
- `History` (`history.dfy`): history entries, `Record` (merge or prepend),
  `Clear`, `Restore`, and the run-length reading of the log (`Expand`,
  `Replay`).
- `Session` (`session.dfy`): the component state, the actions, and the
  invariant every reachable state keeps.

The evaluation pipeline of `calculate` is a parameter
`eval: string -> Option<string>` that receives the raw input; `None` stands
for the thrown error. `Session.Pipeline` builds it as the source does: the
rewrite, then a numeric evaluator standing for `evaluateExpression` followed by
`toString()`. The history records the raw input, not the rewritten one, as the
source does.

The rewrite is modelled as the code writes it: a blind global replacement of
the letter `e` by `Math.E`, so `1e3` becomes `1Math.E3`
(`Scientific.TransformLetterE`). The replacement does not respect token
boundaries; the model follows the code.

## Model

| member | source | states |
|---|---|---|
| TextReplace.ReplaceAll | calculator.tsx:73-82 | one global literal `replace`; every output character comes from the input or from the replacement text |
| TextReplace.ReplaceAllIsSplitJoin | calculator.tsx:73-82 | replacing all occurrences equals splitting at the leftmost non-overlapping occurrences and joining with the replacement |
| TextReplace.SplitPiecesMatchFree | calculator.tsx:73-82 | every piece between consecutive matches is free of the pattern |
| TextReplace.ReplaceAllSkipInert | calculator.tsx:73-82 | a stretch inside which no occurrence can start is copied unchanged and scanning continues after it |
| TextReplace.ReplaceAllInert | calculator.tsx:73-82 | a text inside which no occurrence can start, between texts without the pattern's first character, comes back unchanged |
| TextReplace.JoinSplit | calculator.tsx:73-82 | splitting at the pattern and joining with the pattern gives back the input |
| TextReplace.ReplaceAllSelf | calculator.tsx:73-82 | replacing a pattern by itself leaves any text unchanged |
| TextReplace.ReplaceAllMatchFree | calculator.tsx:73-82 | a text in which the pattern does not occur comes back unchanged, whatever the replacement |
| TextReplace.ReplaceAllSkipAll | calculator.tsx:73-82 | text without the pattern's first character is copied unchanged and scanning continues after it |
| TextReplace.ReplaceAllSingle | calculator.tsx:73-82 | a single occurrence surrounded by text without the pattern's first character is the only thing replaced |
| TextReplace.ReplaceAllRemovesChar | calculator.tsx:79-82 | after replacing a one-character pattern by text without that character, the character is gone from the output |
| Scientific.ApplyRulesKeepsAbsent | calculator.tsx:72-82 | a character absent from the input and from every replacement text is absent from the result of the chain |
| Scientific.ApplyRulesRemoves | calculator.tsx:72-82 | a character replaced by some step, and reintroduced by no step from there on, is absent from the result of the chain |
| Scientific.ApplyRulesUntouched | calculator.tsx:72-82 | a text containing the first character of no pattern passes the chain unchanged |
| Scientific.ApplyRulesSplit | calculator.tsx:72-82 | applying the chain equals applying its first steps and then the remaining ones |
| Scientific.TransformRemoves | calculator.tsx:72-84 | any one-character pattern of the chain that no later replacement reintroduces is absent from every rewritten expression |
| Scientific.TransformRemovesCaret | calculator.tsx:79 | no `^` is left after the rewrite |
| Scientific.TransformRemovesPi | calculator.tsx:80 | no pi symbol is left after the rewrite |
| Scientific.TransformRemovesE | calculator.tsx:82 | no lower-case `e` is left after the rewrite, wherever it stood |
| Scientific.PlainArithmeticUnchanged | calculator.tsx:72-84 | input made only of digits, `.`, `+`, `-`, `*`, `/`, parentheses and spaces is passed on unchanged |
| Scientific.TransformPlainExample | calculator.tsx:72-84 | `2+2` is passed on as `2+2` |
| Scientific.TransformPiNameExample | calculator.tsx:81 | `2*pi` becomes `2*Math.PI` |
| Scientific.TransformSqrtExample | calculator.tsx:78 | `sqrt(16)` becomes `Math.sqrt(16)` |
| Scientific.TransformFollowsRules | calculator.tsx:72-84 | the chain of ten replacements is the rule table applied in order |
| Scientific.FunctionStepsFollowRules | calculator.tsx:73-77 | the first five replacements of the chain are the first five rules of the table |
| Scientific.SymbolStepsFollowRules | calculator.tsx:78-82 | the last five replacements of the chain are the last five rules of the table |
| Scientific.RulesLeavePlain | calculator.tsx:72-84 | the rule table leaves plain arithmetic unchanged |
| Scientific.RuleStartsNotPlain | calculator.tsx:73-82 | no pattern of the chain starts with a digit, `.`, an operator, a parenthesis or a space |
| Scientific.ApplyRulesInert | calculator.tsx:72-82 | a text inside which no pattern of the chain can start, between texts without any pattern's first character, passes the chain unchanged |
| Scientific.RulesBeforeToken | calculator.tsx:73-82 | the steps before step k leave the pattern of step k between plain operands alone, when none of them can start a match inside that pattern |
| Scientific.RulesAfterToken | calculator.tsx:73-82 | the steps after step k leave the replacement of step k between plain operands alone, when none of them can start a match inside that replacement |
| Scientific.RulesToken | calculator.tsx:72-84 | under those two conditions, the table turns the pattern of step k between plain operands into its replacement and touches nothing else |
| Scientific.TransformToken | calculator.tsx:72-84 | the same for the chain as written |
| Scientific.TransformSine | calculator.tsx:73 | `sin(` between plain operands becomes `Math.sin(` |
| Scientific.TransformCosine | calculator.tsx:74 | `cos(` between plain operands becomes `Math.cos(` |
| Scientific.TransformTangent | calculator.tsx:75 | `tan(` between plain operands becomes `Math.tan(` |
| Scientific.TransformLog | calculator.tsx:76 | `log(` between plain operands becomes the base-10 `Math.log10(`, which the later `ln(` step leaves alone |
| Scientific.TransformLn | calculator.tsx:77 | `ln(` between plain operands becomes the natural `Math.log(` |
| Scientific.TransformSqrt | calculator.tsx:78 | `sqrt(` between plain operands becomes `Math.sqrt(` |
| Scientific.TransformPower | calculator.tsx:79 | `a^b` with plain operands becomes `a**b` (for example `2^10` becomes `2**10`) |
| Scientific.TransformPiSymbol | calculator.tsx:80-82 | `a` pi-symbol `b` with plain operands becomes `a` `Math.PI` `b`; the later `pi` and `e` steps leave `Math.PI` alone |
| Scientific.TransformPiName | calculator.tsx:81 | the name `pi` between plain operands becomes `Math.PI` |
| Scientific.TransformLetterE | calculator.tsx:82 | `a` `e` `b` with plain operands becomes `a` `Math.E` `b`, even when `e` is the exponent marker of a number: `1e3` becomes `1Math.E3` |
| JsString.TrimStart | calculator.tsx:34 | the result is a suffix of the input, everything dropped is white space, and the result does not start with white space |
| JsString.TrimEnd | calculator.tsx:34 | the result is a prefix of the input, everything dropped is white space, and the result does not end with white space |
| JsString.TrimEmptyIffBlank | calculator.tsx:34 | `input.trim()` is empty exactly when every character of the input is white space |
| JsString.DropLast | calculator.tsx:114 | `slice(0, -1)` drops exactly the last character; the empty text stays empty |
| History.Record | calculator.tsx:45-59 | head equal in input and result: same length, head count becomes old count (absent or 0 read as 1) plus 1, rest unchanged; otherwise `{input, result, 1}` is prepended to the unchanged history |
| History.Clear | calculator.tsx:128-130 | clearing yields the empty history |
| History.RecordKeepsWellFormed | calculator.tsx:45-59 | recording keeps every count at least 1 and no two neighbouring entries equal in both input and result |
| History.RecordKeepsAll | calculator.tsx:45-59 | recording keeps any property that the new calculation and every calculation already in the history share, because it only ever adds the new calculation |
| History.RecordExpands | calculator.tsx:45-59 | recording adds exactly the new calculation, at the front, to the calculations the history stands for |
| History.SumCountsIsExpandLength | calculator.tsx:52 | in a well-formed history the counts add up to the number of calculations it stands for |
| History.ReplayFaithful | calculator.tsx:45-59 | any sequence of recordings from the empty history keeps counts at least 1, no equal neighbours, and counts summing to the number of recordings, and the history stands for exactly the recorded calculations |
| History.RecordAllAppend | calculator.tsx:45-59 | recording two batches one after the other is recording their concatenation |
| History.RecordRepeated | calculator.tsx:47-57 | recording one calculation n times after a different head produces one entry with count n |
| History.ReplayExpand | calculator.tsx:45-59 | a well-formed history is exactly what recording its calculations from the empty history produces |
| Session.Initial | calculator.tsx:13-15 | input and result start empty; the initial history is well formed and stands for no calculation |
| Session.PipelinePlain | calculator.tsx:38-39 | plain-arithmetic input reaches the numeric evaluator exactly as typed |
| Session.PipelineHidesSymbols | calculator.tsx:38-39 | the text the numeric evaluator receives contains no `^`, no pi symbol and no lower-case `e` |
| Session.Calculate | calculator.tsx:33-67 | blank input changes nothing; a failed evaluation sets the result to `Error` and changes nothing else; a successful one shows the result, records the raw input with it, and clears the input |
| Session.Press | calculator.tsx:107-119 | `=` is `calculate`; `C` empties input and result; backspace drops the last input character; any other value is appended; only `=` can change the history |
| Session.PickEntry | calculator.tsx:122-125 | the entry's input becomes the input; result and history are unchanged |
| Session.ClearHistory | calculator.tsx:128-130 | the history becomes empty; input and result are unchanged |
| Session.CalculateRecordsOnce | calculator.tsx:33-67 | the history changes exactly when the input is not blank and evaluation succeeds, and then gains exactly that one calculation |
| Session.CalculateKeepsInvariant | calculator.tsx:33-67 | `calculate` keeps the history well formed and every entry a genuine calculation of a non-blank input |
| Session.RecordKeepsGenuine | calculator.tsx:45-59 | recording a calculation the evaluator produced keeps every entry one the evaluator would reproduce |
| Session.StepKeepsInvariant | calculator.tsx:107-130 | every action keeps the history well formed and every entry a genuine calculation of a non-blank input |
| Session.RunKeepsInvariant | calculator.tsx:107-130 | any sequence of actions keeps that invariant |
| Session.ReachableInvariant | calculator.tsx:13-15 | every state reachable from the initial one satisfies that invariant |
| Session.TypeThenBackspace | calculator.tsx:113-116 | appending one character and pressing backspace restores the state |
| Session.ClearHistoryIdempotent | calculator.tsx:128-130 | clearing the history twice is clearing it once |
| Session.RestoreThenCalculate | calculator.tsx:122-125 | clicking an entry of a reachable history and pressing `=` shows that entry's result again, clears the input, and records that calculation once more |

## Left out

- `evaluateExpression` (calculator.tsx:88-104) and `toString()`: running text as JavaScript with `new Function`, floating-point arithmetic and number printing are not modelled; they form the evaluator parameter, whose `None` stands for every thrown error.
- Session.RestoreThenCalculate: the evaluator is a mathematical function, so the model assumes evaluation is deterministic and has no side effects. The component runs the text through `new Function` (calculator.tsx:93), and typed text such as `Math.random()` passes the rewrite unchanged and yields a new number on every evaluation; for such input, re-running a history entry need not show its result again, and the `Session.Genuine` part of the invariant (every entry is one the evaluator would reproduce) does not hold of the component.
- React machinery: `useState` and `useEffect`, focusing the input through `inputRef`, the Enter-key handler (it only calls `calculate`), the text field's `onChange` (it replaces the input text) and all rendering. `calculate` is modelled as one synchronous transition, which is how its state updates take effect.
- Characters: strings are sequences of Unicode scalar values. JavaScript strings are UTF-16 code units, so `slice(0, -1)` on a character outside the Basic Multilingual Plane removes half a surrogate pair; the model removes the whole character.
- History.Multiplicity: counts are modelled as unbounded integers; a fractional or NaN count (the entry type allows any number) is not modelled, and no code path creates such a count. In the component counts are IEEE doubles, so once a count reaches 2^53 the `+ 1` of calculator.tsx:52 no longer changes it.
- History.RecordRepeated: n identical records give count n only for n up to 2^53 in the component, because of the double-precision count above; the model has no such bound.
- History.ReplayFaithful: the counts sum to the number of recordings only while no run of identical calculations exceeds 2^53, for the same reason.
- app/page.tsx: page layout that renders the component; it has no logic.
