/** The rewrite of a calculator expression into the JavaScript text that the
    evaluator runs (`processScientificFunctions`): ten global literal
    replacements applied one after the other, in a fixed order. The rewrite is
    blind text substitution: it does not look at token boundaries, so the
    letter `e` is replaced wherever it stands, including inside numbers such as
    `1e3`.

    `Transform` is the chain as the source writes it, cut into two halves of
    five steps for the sake of proof size. `Rules` holds the same
    chain as data, and `ApplyRules` runs any such table; the general lemmas
    are proved about tables and carried over to `Transform` through
    `TransformFollowsRules`. */
module Scientific {
  import opened TextReplace

  /** One global replacement: every occurrence of `pat` becomes `rep`. */
  datatype Rule = Rule(pat: string, rep: string)

  /** Every pattern is non-empty, so each replacement is well defined. */
  predicate ValidRules(rules: seq<Rule>) {
    forall k :: 0 <= k < |rules| ==> |rules[k].pat| > 0
  }

  /** The replacements in the order the source applies them. */
  const Rules: seq<Rule> := [
    Rule("sin(", "Math.sin("),
    Rule("cos(", "Math.cos("),
    Rule("tan(", "Math.tan("),
    Rule("log(", "Math.log10("),
    Rule("ln(", "Math.log("),
    Rule("sqrt(", "Math.sqrt("),
    Rule("^", "**"),
    Rule("\U{03C0}", "Math.PI"),   // the symbol pi
    Rule("pi", "Math.PI"),
    Rule("e", "Math.E")
  ]

  /** Applies `rules` in order, each to the output of the one before. */
  function ApplyRules(s: string, rules: seq<Rule>): string
    requires ValidRules(rules)
    decreases |rules|
  {
    if |rules| == 0 then s
    else
      var next := ReplaceAll(s, rules[0].pat, rules[0].rep);
      assert forall k :: 1 <= k < |rules| ==> rules[1..][k - 1] == rules[k];
      ApplyRules(next, rules[1..])
  }

  /** `processScientificFunctions`: the ten global replacements, in order. */
  function Transform(expr: string): string {
    SymbolSteps(FunctionSteps(expr))
  }

  /** The first five replacements of the chain: `sin(`, `cos(`, `tan(`, `log(`
      and `ln(`. */
  function FunctionSteps(expr: string): string {
    var s1 := ReplaceAll(expr, "sin(", "Math.sin(");
    var s2 := ReplaceAll(s1, "cos(", "Math.cos(");
    var s3 := ReplaceAll(s2, "tan(", "Math.tan(");
    var s4 := ReplaceAll(s3, "log(", "Math.log10(");
    ReplaceAll(s4, "ln(", "Math.log(")
  }

  /** The last five replacements of the chain: `sqrt(`, `^`, the pi symbol,
      `pi` and `e`. */
  function SymbolSteps(s5: string): string {
    var s6 := ReplaceAll(s5, "sqrt(", "Math.sqrt(");
    var s7 := ReplaceAll(s6, "^", "**");
    var s8 := ReplaceAll(s7, "\U{03C0}", "Math.PI");   // the symbol pi
    var s9 := ReplaceAll(s8, "pi", "Math.PI");
    ReplaceAll(s9, "e", "Math.E")
  }

  /** A character absent from the text and from every replacement stays absent. */
  lemma {:induction false} ApplyRulesKeepsAbsent(s: string, rules: seq<Rule>, c: char)
    requires ValidRules(rules)
    requires c !in s
    requires forall k :: 0 <= k < |rules| ==> c !in rules[k].rep
    ensures c !in ApplyRules(s, rules)
    decreases |rules|
  {
    if |rules| > 0 {
      var next := ReplaceAll(s, rules[0].pat, rules[0].rep);
      assert c !in next;
      assert forall k :: 0 <= k < |rules[1..]| ==> rules[1..][k] == rules[k + 1];
      ApplyRulesKeepsAbsent(next, rules[1..], c);
    }
  }

  /** A character that some rule replaces by text without it, and that no later
      rule brings back, is absent from the result. */
  lemma {:induction false} ApplyRulesRemoves(s: string, rules: seq<Rule>, i: nat, c: char)
    requires ValidRules(rules)
    requires i < |rules| && rules[i].pat == [c]
    requires forall k :: i <= k < |rules| ==> c !in rules[k].rep
    ensures c !in ApplyRules(s, rules)
    decreases i
  {
    var next := ReplaceAll(s, rules[0].pat, rules[0].rep);
    assert forall k :: 0 <= k < |rules[1..]| ==> rules[1..][k] == rules[k + 1];
    if i == 0 {
      ReplaceAllRemovesChar(s, c, rules[0].rep);
      ApplyRulesKeepsAbsent(next, rules[1..], c);
    } else {
      ApplyRulesRemoves(next, rules[1..], i - 1, c);
    }
  }

  /** A text containing the first character of no pattern passes through unchanged. */
  lemma {:induction false} ApplyRulesUntouched(s: string, rules: seq<Rule>)
    requires ValidRules(rules)
    requires forall k :: 0 <= k < |rules| ==> rules[k].pat[0] !in s
    ensures ApplyRules(s, rules) == s
    decreases |rules|
  {
    if |rules| > 0 {
      FirstCharAbsent(s, rules[0].pat);
      ReplaceAllMatchFree(s, rules[0].pat, rules[0].rep);
      assert forall k :: 0 <= k < |rules[1..]| ==> rules[1..][k] == rules[k + 1];
      ApplyRulesUntouched(s, rules[1..]);
    }
  }

  /** The characters of plain arithmetic: digits, the decimal point, the four
      operators, parentheses and the space. */
  predicate PlainArithmetic(s: string) {
    forall c :: c in s ==> IsPlainChar(c)
  }

  predicate IsPlainChar(c: char) {
    || ('0' <= c <= '9')
    || c == '.' || c == '+' || c == '-' || c == '*' || c == '/'
    || c == '(' || c == ')' || c == ' '
  }

  /** The rule table is well formed. */
  lemma RulesValid()
    ensures ValidRules(Rules)
  {
  }

  /** A character that rule `i` replaces, and that no replacement from rule `i`
      on contains, is absent from every rewritten expression. */
  lemma TransformRemoves(expr: string, i: nat, c: char)
    requires i < |Rules| && Rules[i].pat == [c]
    requires forall k :: i <= k < |Rules| ==> c !in Rules[k].rep
    ensures c !in Transform(expr)
  {
    TransformFollowsRules(expr);
    ApplyRulesRemoves(expr, Rules, i, c);
  }

  /** No `^` survives the rewrite: it becomes `**`. */
  lemma TransformRemovesCaret(expr: string)
    ensures '^' !in Transform(expr)
  {
    assert Rules[6].pat == ['^'];
    assert forall k :: 6 <= k < |Rules| ==> '^' !in Rules[k].rep;
    TransformRemoves(expr, 6, '^');
  }

  /** No pi symbol survives the rewrite: it becomes `Math.PI`. */
  lemma TransformRemovesPi(expr: string)
    ensures '\U{03C0}' !in Transform(expr)
  {
    assert Rules[7].pat == ['\U{03C0}'];
    assert forall k :: 7 <= k < |Rules| ==> '\U{03C0}' !in Rules[k].rep;
    TransformRemoves(expr, 7, '\U{03C0}');
  }

  /** No lower-case `e` survives the rewrite: every one becomes `Math.E`,
      wherever it stands. */
  lemma TransformRemovesE(expr: string)
    ensures 'e' !in Transform(expr)
  {
    assert Rules[9].pat == ['e'];
    assert forall k :: 9 <= k < |Rules| ==> 'e' !in Rules[k].rep;
    TransformRemoves(expr, 9, 'e');
  }

  /** Plain arithmetic is handed to the evaluator exactly as typed. */
  lemma PlainArithmeticUnchanged(expr: string)
    requires PlainArithmetic(expr)
    ensures Transform(expr) == expr
  {
    RulesLeavePlain(expr);
    TransformFollowsRules(expr);
  }

  /** The rule table leaves plain arithmetic alone. */
  lemma RulesLeavePlain(expr: string)
    requires PlainArithmetic(expr)
    ensures ValidRules(Rules) && ApplyRules(expr, Rules) == expr
  {
    RulesValid();
    assert forall k :: 0 <= k < |Rules| ==> !IsPlainChar(Rules[k].pat[0]);
    ApplyRulesUntouched(expr, Rules);
  }

  /** Applying a rule list is applying a prefix of it and then the rest. */
  lemma {:induction false} ApplyRulesSplit(s: string, rules: seq<Rule>, k: nat)
    requires ValidRules(rules) && k <= |rules|
    ensures ValidRules(rules[..k]) && ValidRules(rules[k..])
    ensures ApplyRules(s, rules) == ApplyRules(ApplyRules(s, rules[..k]), rules[k..])
    decreases k
  {
    assert forall j :: 0 <= j < k ==> rules[..k][j] == rules[j];
    assert forall j :: 0 <= j < |rules| - k ==> rules[k..][j] == rules[k + j];
    if k > 0 {
      var next := ReplaceAll(s, rules[0].pat, rules[0].rep);
      assert forall j :: 0 <= j < |rules| - 1 ==> rules[1..][j] == rules[j + 1];
      ApplyRulesSplit(next, rules[1..], k - 1);
      assert rules[1..][..k - 1] == rules[..k][1..];
      assert rules[1..][k - 1..] == rules[k..];
    }
  }

  /** Rules `k` onwards are rule `k` followed by rules `k + 1` onwards. */
  lemma RulesFromStep(s: string, k: nat)
    requires k < |Rules|
    ensures ValidRules(Rules[k..]) && |Rules[k].pat| > 0
    ensures ApplyRules(s, Rules[k..]) == ApplyRules(ReplaceAll(s, Rules[k].pat, Rules[k].rep), Rules[k + 1..])
  {
    RulesValid();
    assert forall j :: 0 <= j < |Rules| - k ==> Rules[k..][j] == Rules[k + j];
    assert Rules[k..][0] == Rules[k];
    assert Rules[k..][1..] == Rules[k + 1..];
  }

  /** No pattern of the rewrite starts with a plain-arithmetic character. */
  lemma RuleStartsNotPlain()
    ensures forall j :: 0 <= j < |Rules| ==> |Rules[j].pat| > 0 && !IsPlainChar(Rules[j].pat[0])
  {
  }

  /** A text inside which no pattern of the table can start, between two texts
      without any pattern's first character, passes the table unchanged. */
  lemma {:induction false} ApplyRulesInert(a: string, m: string, b: string, rules: seq<Rule>)
    requires ValidRules(rules)
    requires forall j :: 0 <= j < |rules| ==>
      rules[j].pat[0] !in a && rules[j].pat[0] !in b && NoneStartsIn(m, rules[j].pat)
    ensures ApplyRules(a + m + b, rules) == a + m + b
    decreases |rules|
  {
    if |rules| > 0 {
      ReplaceAllInert(a, m, b, rules[0].pat, rules[0].rep);
      assert forall j :: 0 <= j < |rules[1..]| ==> rules[1..][j] == rules[j + 1];
      ApplyRulesInert(a, m, b, rules[1..]);
    }
  }

  /** The steps before step `k` find nothing in the pattern of step `k` between
      plain operands, when none of them can start a match inside it. */
  lemma RulesBeforeToken(a: string, b: string, k: nat)
    requires PlainArithmetic(a) && PlainArithmetic(b) && k < |Rules|
    requires forall j :: 0 <= j < k ==> NoneStartsIn(Rules[k].pat, Rules[j].pat)
    ensures ValidRules(Rules[..k])
    ensures ApplyRules(a + Rules[k].pat + b, Rules[..k]) == a + Rules[k].pat + b
  {
    RulesValid();
    RuleStartsNotPlain();
    assert forall j :: 0 <= j < k ==> Rules[..k][j] == Rules[j];
    ApplyRulesInert(a, Rules[k].pat, b, Rules[..k]);
  }

  /** The steps after step `k` find nothing in the replacement of step `k`
      between plain operands, when none of them can start a match inside it. */
  lemma RulesAfterToken(a: string, b: string, k: nat)
    requires PlainArithmetic(a) && PlainArithmetic(b) && k < |Rules|
    requires forall j :: k < j < |Rules| ==> NoneStartsIn(Rules[k].rep, Rules[j].pat)
    ensures ValidRules(Rules[k + 1..])
    ensures ApplyRules(a + Rules[k].rep + b, Rules[k + 1..]) == a + Rules[k].rep + b
  {
    RulesValid();
    RuleStartsNotPlain();
    assert forall j :: k + 1 <= j < |Rules| ==> Rules[k + 1..][j - (k + 1)] == Rules[j];
    ApplyRulesInert(a, Rules[k].rep, b, Rules[k + 1..]);
  }

  /** The rule-table form of `TransformToken`. */
  lemma RulesToken(a: string, b: string, k: nat)
    requires PlainArithmetic(a) && PlainArithmetic(b) && k < |Rules|
    requires forall j :: 0 <= j < k ==> NoneStartsIn(Rules[k].pat, Rules[j].pat)
    requires forall j :: k < j < |Rules| ==> NoneStartsIn(Rules[k].rep, Rules[j].pat)
    ensures ValidRules(Rules)
    ensures ApplyRules(a + Rules[k].pat + b, Rules) == a + Rules[k].rep + b
  {
    var pat, rep := Rules[k].pat, Rules[k].rep;
    var s := a + pat + b;
    RulesValid();
    RuleStartsNotPlain();
    ApplyRulesSplit(s, Rules, k);
    RulesBeforeToken(a, b, k);
    RulesFromStep(s, k);
    ReplaceAllSingle(a, b, pat, rep);
    RulesAfterToken(a, b, k);
  }

  /** A pattern of the chain standing between two plain-arithmetic operands
      becomes its replacement, and nothing else is touched, when no earlier step
      can start a match inside that pattern and no later step can start a
      match inside its replacement. */
  lemma TransformToken(a: string, b: string, k: nat)
    requires PlainArithmetic(a) && PlainArithmetic(b) && k < |Rules|
    requires forall j :: 0 <= j < k ==> NoneStartsIn(Rules[k].pat, Rules[j].pat)
    requires forall j :: k < j < |Rules| ==> NoneStartsIn(Rules[k].rep, Rules[j].pat)
    ensures Transform(a + Rules[k].pat + b) == a + Rules[k].rep + b
  {
    RulesToken(a, b, k);
    TransformFollowsRules(a + Rules[k].pat + b);
  }

  /** `sin(` becomes `Math.sin(`. */
  lemma TransformSine(a: string, b: string)
    requires PlainArithmetic(a) && PlainArithmetic(b)
    ensures Transform(a + "sin(" + b) == a + "Math.sin(" + b
  {
    assert Rules[0] == Rule("sin(", "Math.sin(");
    TransformToken(a, b, 0);
  }

  /** `cos(` becomes `Math.cos(`. */
  lemma TransformCosine(a: string, b: string)
    requires PlainArithmetic(a) && PlainArithmetic(b)
    ensures Transform(a + "cos(" + b) == a + "Math.cos(" + b
  {
    assert Rules[1] == Rule("cos(", "Math.cos(");
    TransformToken(a, b, 1);
  }

  /** `tan(` becomes `Math.tan(`. */
  lemma TransformTangent(a: string, b: string)
    requires PlainArithmetic(a) && PlainArithmetic(b)
    ensures Transform(a + "tan(" + b) == a + "Math.tan(" + b
  {
    assert Rules[2] == Rule("tan(", "Math.tan(");
    TransformToken(a, b, 2);
  }

  /** `log(` is the base-10 logarithm `Math.log10(`; the later `ln(` step
      does not touch the `log10(` it writes. */
  lemma TransformLog(a: string, b: string)
    requires PlainArithmetic(a) && PlainArithmetic(b)
    ensures Transform(a + "log(" + b) == a + "Math.log10(" + b
  {
    assert Rules[3] == Rule("log(", "Math.log10(");
    assert NoneStartsFrom("Math.log10(", "ln(", 5);   // past the `Math.` prefix
    TransformToken(a, b, 3);
  }

  /** `ln(` is the natural logarithm `Math.log(`. */
  lemma TransformLn(a: string, b: string)
    requires PlainArithmetic(a) && PlainArithmetic(b)
    ensures Transform(a + "ln(" + b) == a + "Math.log(" + b
  {
    assert Rules[4] == Rule("ln(", "Math.log(");
    TransformToken(a, b, 4);
  }

  /** `sqrt(` becomes `Math.sqrt(`. */
  lemma TransformSqrt(a: string, b: string)
    requires PlainArithmetic(a) && PlainArithmetic(b)
    ensures Transform(a + "sqrt(" + b) == a + "Math.sqrt(" + b
  {
    assert Rules[5] == Rule("sqrt(", "Math.sqrt(");
    TransformToken(a, b, 5);
  }

  /** `x^y` with plain operands becomes `x**y`, the JavaScript power operator. */
  lemma TransformPower(a: string, b: string)
    requires PlainArithmetic(a) && PlainArithmetic(b)
    ensures Transform(a + "^" + b) == a + "**" + b
  {
    assert Rules[6] == Rule("^", "**");
    TransformToken(a, b, 6);
  }

  /** The pi symbol becomes `Math.PI`, and the later `pi` and `e` replacements
      leave that text alone. */
  lemma TransformPiSymbol(a: string, b: string)
    requires PlainArithmetic(a) && PlainArithmetic(b)
    ensures Transform(a + "\U{03C0}" + b) == a + "Math.PI" + b
  {
    assert Rules[7] == Rule("\U{03C0}", "Math.PI");
    TransformToken(a, b, 7);
  }

  /** The name `pi` becomes `Math.PI`. */
  lemma TransformPiName(a: string, b: string)
    requires PlainArithmetic(a) && PlainArithmetic(b)
    ensures Transform(a + "pi" + b) == a + "Math.PI" + b
  {
    assert Rules[8] == Rule("pi", "Math.PI");
    TransformToken(a, b, 8);
  }

  /** A lone `e` between plain operands becomes `Math.E`, even where it is the
      exponent marker of a number: `1e3` becomes `1Math.E3`. */
  lemma TransformLetterE(a: string, b: string)
    requires PlainArithmetic(a) && PlainArithmetic(b)
    ensures Transform(a + "e" + b) == a + "Math.E" + b
  {
    assert Rules[9] == Rule("e", "Math.E");
    TransformToken(a, b, 9);
  }

  /** The named constant in context: `2*pi` becomes `2*Math.PI`. */
  lemma TransformPiNameExample()
    ensures Transform("2*pi") == "2*Math.PI"
  {
    TransformPiName("2*", "");
    assert "2*" + "pi" + "" == "2*pi";
    assert "2*" + "Math.PI" + "" == "2*Math.PI";
  }

  /** A named function in context: `sqrt(16)` becomes `Math.sqrt(16)`. */
  lemma TransformSqrtExample()
    ensures Transform("sqrt(16)") == "Math.sqrt(16)"
  {
    TransformSqrt("", "16)");
    assert "" + "sqrt(" + "16)" == "sqrt(16)";
    assert "" + "Math.sqrt(" + "16)" == "Math.sqrt(16)";
  }

  /** Plain arithmetic such as `2+2` is not rewritten. */
  lemma TransformPlainExample()
    ensures Transform("2+2") == "2+2"
  {
    PlainArithmeticUnchanged("2+2");
  }

  /** The chain as written is the rule table applied in order. */
  lemma TransformFollowsRules(expr: string)
    ensures ValidRules(Rules)
    ensures Transform(expr) == ApplyRules(expr, Rules)
  {
    FunctionStepsFollowRules(expr);
    SymbolStepsFollowRules(FunctionSteps(expr));
  }

  /** The first five replacements are the first five rules. */
  lemma FunctionStepsFollowRules(expr: string)
    ensures ValidRules(Rules) && ValidRules(Rules[5..])
    ensures ApplyRules(expr, Rules) == ApplyRules(FunctionSteps(expr), Rules[5..])
  {
    RulesValid();
    assert Rules[0..] == Rules;
    var s1 := ReplaceAll(expr, "sin(", "Math.sin(");
    assert Rules[0] == Rule("sin(", "Math.sin(");
    RulesFromStep(expr, 0);
    var s2 := ReplaceAll(s1, "cos(", "Math.cos(");
    assert Rules[1] == Rule("cos(", "Math.cos(");
    RulesFromStep(s1, 1);
    var s3 := ReplaceAll(s2, "tan(", "Math.tan(");
    assert Rules[2] == Rule("tan(", "Math.tan(");
    RulesFromStep(s2, 2);
    var s4 := ReplaceAll(s3, "log(", "Math.log10(");
    assert Rules[3] == Rule("log(", "Math.log10(");
    RulesFromStep(s3, 3);
    assert Rules[4] == Rule("ln(", "Math.log(");
    RulesFromStep(s4, 4);
  }

  /** The last five replacements are the last five rules. */
  lemma SymbolStepsFollowRules(s5: string)
    ensures ValidRules(Rules[5..])
    ensures ApplyRules(s5, Rules[5..]) == SymbolSteps(s5)
  {
    RulesValid();
    var s6 := ReplaceAll(s5, "sqrt(", "Math.sqrt(");
    assert Rules[5] == Rule("sqrt(", "Math.sqrt(");
    RulesFromStep(s5, 5);
    var s7 := ReplaceAll(s6, "^", "**");
    assert Rules[6] == Rule("^", "**");
    RulesFromStep(s6, 6);
    var s8 := ReplaceAll(s7, "\U{03C0}", "Math.PI");
    assert Rules[7] == Rule("\U{03C0}", "Math.PI");
    RulesFromStep(s7, 7);
    var s9 := ReplaceAll(s8, "pi", "Math.PI");
    assert Rules[8] == Rule("pi", "Math.PI");
    RulesFromStep(s8, 8);
    assert Rules[9] == Rule("e", "Math.E");
    RulesFromStep(s9, 9);
    assert Rules[10..] == [];
  }

}
