/** The calculator's session state — the input text, the displayed result and
    the history — and the user actions that change it: pressing a button,
    clicking a history entry, and clearing the history.

    The evaluation pipeline of `calculate` (the rewrite, running the rewritten
    text as JavaScript, rejecting non-numbers and non-finite numbers, and
    printing the number) is a parameter: it maps the raw input to the result
    text, or to `None` when an error is thrown. `Pipeline` shows how the
    component builds it from the rewrite and a numeric evaluator. */
module Session {
  import opened Optional
  import opened History
  import JsString
  import Scientific

  /** The three pieces of component state. */
  datatype State = State(input: string, result: string, history: Log)

  /** An evaluation pipeline, seen as one partial function from text to the
      result text. */
  type Evaluator = string -> Option<string>

  /** `calculate`'s pipeline: `processScientificFunctions`, then the numeric
      evaluator and number formatting `evaluate`. */
  function Pipeline(evaluate: Evaluator): Evaluator {
    input => evaluate(Scientific.Transform(input))
  }

  /** Plain arithmetic reaches the numeric evaluator exactly as typed. */
  lemma PipelinePlain(evaluate: Evaluator, input: string)
    requires Scientific.PlainArithmetic(input)
    ensures Pipeline(evaluate)(input) == evaluate(input)
  {
    Scientific.PlainArithmeticUnchanged(input);
  }

  /** What the numeric evaluator receives is the rewritten input, which never
      contains `^`, the pi symbol or a lower-case `e`. */
  lemma PipelineHidesSymbols(evaluate: Evaluator, input: string)
    ensures var text := Scientific.Transform(input);
      Pipeline(evaluate)(input) == evaluate(text)
      && '^' !in text && '\U{03C0}' !in text && 'e' !in text
  {
    Scientific.TransformRemovesCaret(input);
    Scientific.TransformRemovesPi(input);
    Scientific.TransformRemovesE(input);
  }

  /** The text shown when evaluation fails. */
  const ErrorText: string := "Error"

  /** The state on first render: empty input, empty result, empty history. */
  function Initial(): (st: State)
    ensures st.input == [] && st.result == []
    ensures WellFormed(st.history) && Expand(st.history) == []
  {
    State("", "", [])
  }

  /** `calculate`: blank input is ignored; otherwise the input is evaluated,
      and either the result is shown, the calculation recorded and the input
      cleared, or "Error" is shown and nothing else changes. */
  function Calculate(st: State, eval: Evaluator): (r: State)
    ensures JsString.Blank(st.input) ==> r == st
    ensures !JsString.Blank(st.input) && eval(st.input).None? ==>
      r == st.(result := ErrorText)
    ensures !JsString.Blank(st.input) && eval(st.input).Some? ==>
      var v := eval(st.input).value;
      r == State([], v, Record(st.history, st.input, v))
  {
    JsString.TrimEmptyIffBlank(st.input);
    if JsString.Trim(st.input) == [] then st
    else match eval(st.input)
      case None => st.(result := ErrorText)
      case Some(v) => State([], v, Record(st.history, st.input, v))
  }

  /** `handleButtonClick`: `=` calculates, `C` clears input and result, the
      backspace arrow drops the last input character, and any other button
      text is appended to the input. */
  function Press(st: State, value: string, eval: Evaluator): (r: State)
    ensures value == "=" ==> r == Calculate(st, eval)
    ensures value != "=" ==> r.history == st.history
    ensures value == "C" ==> r.input == [] && r.result == []
    ensures value == "\U{2190}" ==>
      && r.result == st.result
      && (|st.input| == 0 ==> r.input == [])
      && (|st.input| > 0 ==> r.input + [st.input[|st.input| - 1]] == st.input)
    ensures value !in {"=", "C", "\U{2190}"} ==> r == st.(input := st.input + value)
  {
    if value == "=" then Calculate(st, eval)
    else if value == "C" then st.(input := [], result := [])
    else if value == "\U{2190}" then st.(input := JsString.DropLast(st.input))
    else st.(input := st.input + value)
  }

  /** `handleHistoryItemClick`: the entry's input becomes the input text. */
  function PickEntry(st: State, item: Entry): (r: State)
    ensures r.input == item.input && r.result == st.result && r.history == st.history
  {
    st.(input := Restore(item))
  }

  /** `clearHistory`: the history empties; input and result stay. */
  function ClearHistory(st: State): (r: State)
    ensures r.history == [] && r.input == st.input && r.result == st.result
  {
    st.(history := Clear(st.history))
  }

  /** The user actions the model covers. */
  datatype Action = Button(value: string) | HistoryClick(item: Entry) | ClearLog

  /** The state after one action. */
  function Step(st: State, a: Action, eval: Evaluator): State {
    match a
    case Button(v) => Press(st, v, eval)
    case HistoryClick(item) => PickEntry(st, item)
    case ClearLog => ClearHistory(st)
  }

  /** The state after the actions `acts`, performed first to last. */
  function Run(st: State, acts: seq<Action>, eval: Evaluator): State
    decreases |acts|
  {
    if |acts| == 0 then st else Run(Step(st, acts[0], eval), acts[1..], eval)
  }

  /** Every history entry is a genuine calculation: its input is not blank, and
      evaluating its input gives its result. */
  predicate Genuine(log: Log, eval: Evaluator) {
    AllCalcs(log, GenuineFor(eval))
  }

  /** `GenuineCalc` for a fixed evaluator. */
  function GenuineFor(eval: Evaluator): Calc -> bool {
    c => GenuineCalc(c, eval)
  }

  /** A calculation of a non-blank input whose result the pipeline produces
      from that input. */
  predicate GenuineCalc(c: Calc, eval: Evaluator) {
    !JsString.Blank(c.input) && eval(c.input) == Some(c.result)
  }

  /** What every reachable state satisfies. */
  predicate Invariant(st: State, eval: Evaluator) {
    WellFormed(st.history) && Genuine(st.history, eval)
  }

  /** A calculation adds at most one calculation to those the history stands
      for — exactly one, the input and its result, when it succeeds — and
      leaves the history untouched otherwise. */
  lemma CalculateRecordsOnce(st: State, eval: Evaluator)
    requires WellFormed(st.history)
    ensures var r := Calculate(st, eval);
      && WellFormed(r.history)
      && (r.history == st.history || Expand(r.history) == [Calc(st.input, r.result)] + Expand(st.history))
      && (r.history != st.history <==> !JsString.Blank(st.input) && eval(st.input).Some?)
  {
    if !JsString.Blank(st.input) && eval(st.input).Some? {
      var v := eval(st.input).value;
      RecordKeepsWellFormed(st.history, st.input, v);
      RecordExpands(st.history, st.input, v);
      assert |Record(st.history, st.input, v)| > 0;
      assert |Expand(Record(st.history, st.input, v))| == |Expand(st.history)| + 1;
    }
  }

  /** Recording a genuine calculation keeps every entry genuine. */
  lemma RecordKeepsGenuine(log: Log, input: string, v: string, eval: Evaluator)
    requires Genuine(log, eval)
    requires GenuineCalc(Calc(input, v), eval)
    ensures Genuine(Record(log, input, v), eval)
  {
    RecordKeepsAll(log, input, v, GenuineFor(eval));
  }

  /** `calculate` keeps the invariant. */
  lemma CalculateKeepsInvariant(st: State, eval: Evaluator)
    requires Invariant(st, eval)
    ensures Invariant(Calculate(st, eval), eval)
  {
    CalculateRecordsOnce(st, eval);
    if !JsString.Blank(st.input) && eval(st.input).Some? {
      var v := eval(st.input).value;
      assert GenuineCalc(Calc(st.input, v), eval);
      RecordKeepsGenuine(st.history, st.input, v, eval);
    }
  }

  /** Every action keeps the invariant. */
  lemma StepKeepsInvariant(st: State, a: Action, eval: Evaluator)
    requires Invariant(st, eval)
    ensures Invariant(Step(st, a, eval), eval)
  {
    match a
    case Button(v) =>
      if v == "=" {
        CalculateKeepsInvariant(st, eval);
      } else {
        assert Step(st, a, eval).history == st.history;
      }
    case HistoryClick(item) =>
    case ClearLog =>
  }

  /** Every state reachable from the initial one satisfies the invariant: the
      counts are at least 1, no two neighbouring entries stand for the same
      calculation, and every entry is a genuine calculation. */
  lemma {:induction false} RunKeepsInvariant(st: State, acts: seq<Action>, eval: Evaluator)
    requires Invariant(st, eval)
    ensures Invariant(Run(st, acts, eval), eval)
    decreases |acts|
  {
    if |acts| > 0 {
      StepKeepsInvariant(st, acts[0], eval);
      RunKeepsInvariant(Step(st, acts[0], eval), acts[1..], eval);
    }
  }

  /** Reachable states satisfy the invariant. */
  lemma ReachableInvariant(acts: seq<Action>, eval: Evaluator)
    ensures Invariant(Run(Initial(), acts, eval), eval)
  {
    RunKeepsInvariant(Initial(), acts, eval);
  }

  /** Typing one character and pressing backspace restores the state. */
  lemma TypeThenBackspace(st: State, c: char, eval: Evaluator)
    requires [c] !in {"=", "C", "\U{2190}"}
    ensures Press(Press(st, [c], eval), "\U{2190}", eval) == st
  {
    var typed := Press(st, [c], eval);
    assert typed.input == st.input + [c];
    assert typed.input[..|typed.input| - 1] == st.input;
  }

  /** Clearing the history twice is clearing it once. */
  lemma ClearHistoryIdempotent(st: State)
    ensures ClearHistory(ClearHistory(st)) == ClearHistory(st)
  {
  }

  /** Clicking an entry of a reachable history and pressing `=` repeats that
      calculation: its result is shown again, the input is cleared, and the
      history gains exactly that calculation. */
  lemma RestoreThenCalculate(st: State, k: nat, eval: Evaluator)
    requires Invariant(st, eval) && k < |st.history|
    ensures var r := Press(PickEntry(st, st.history[k]), "=", eval);
      && r.result == st.history[k].result
      && r.input == []
      && Expand(r.history) == [CalcOf(st.history[k])] + Expand(st.history)
  {
    var item := st.history[k];
    RecordExpands(st.history, item.input, item.result);
  }
}
