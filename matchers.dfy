/** The two rule-based matchers of app.py: `evaluar_reglas`, the exact
    (subset) matcher over the rule table, and `buscar_por_coincidencia`, the
    overlap matcher over the disease table. Both tables are ordered sequences,
    so "the first match" is well defined; both matchers only read them. */
module Matchers {
  import opened Optional
  import opened Text

  /** One entry of the rule table `reglas`: a comma-separated symptom key and its diagnosis. */
  datatype Rule = Rule(key: string, diagnosis: string)

  /** One row of the disease table: the disease and its comma-separated symptom list. */
  datatype DiseaseRow = DiseaseRow(disease: string, symptoms: string)

  /** `set(xs)`: the symptoms of a list, without order or repetition. */
  function SetOf(xs: seq<string>): set<string> {
    set x | x in xs
  }

  /** `reglas.values()`, in table order. */
  function RuleDiagnoses(rules: seq<Rule>): seq<string> {
    seq(|rules|, i requires 0 <= i < |rules| => rules[i].diagnosis)
  }

  // ---------------------------------------------------------------------------
  // Exact matcher: evaluar_reglas
  // ---------------------------------------------------------------------------

  /** The symptoms a rule key names: split on commas, each token stripped. */
  function KeyTokens(key: string): set<string> {
    set p | p in Split(key, ',') :: Strip(p)
  }

  /** A rule fires when every symptom of its key is among the input symptoms
      (containment, not equality). */
  predicate RuleFires(rule: Rule, input: set<string>) {
    KeyTokens(rule.key) <= input
  }

  /** Rule `i` fires and no rule before it does. */
  predicate IsFirstFiringRule(rules: seq<Rule>, input: set<string>, i: int) {
    0 <= i < |rules| && RuleFires(rules[i], input)
    && forall j :: 0 <= j < i ==> !RuleFires(rules[j], input)
  }

  /** The scan of the rule table against a symptom set: the diagnosis of the
      first rule that fires, or None when none does. */
  function FirstFiringRule(rules: seq<Rule>, input: set<string>): (r: Option<string>)
    ensures r.None? <==> forall i :: 0 <= i < |rules| ==> !RuleFires(rules[i], input)
    ensures r.Some? ==> r.value in RuleDiagnoses(rules)
    decreases |rules|
  {
    if rules == [] then None
    else if RuleFires(rules[0], input) then
      assert RuleDiagnoses(rules)[0] == rules[0].diagnosis;
      Some(rules[0].diagnosis)
    else
      var r := FirstFiringRule(rules[1..], input);
      assert r.Some? ==> r.value in RuleDiagnoses(rules)
        by { assert RuleDiagnoses(rules)[1..] == RuleDiagnoses(rules[1..]); }
      r
  }

  /** `evaluar_reglas(sintomas)`. */
  function EvaluateRules(rules: seq<Rule>, symptoms: seq<string>): Option<string> {
    FirstFiringRule(rules, SetOf(symptoms))
  }

  /** First match wins: when rule `i` is the first to fire, its diagnosis is the answer,
      whatever rules after it would also fire. */
  lemma {:induction false} FirstFiringRuleWins(rules: seq<Rule>, input: set<string>, i: int)
    requires IsFirstFiringRule(rules, input, i)
    ensures FirstFiringRule(rules, input) == Some(rules[i].diagnosis)
    decreases i
  {
    if i > 0 {
      assert IsFirstFiringRule(rules[1..], input, i - 1) by {
        assert forall j :: 0 <= j < i - 1 ==> rules[1..][j] == rules[j + 1];
      }
      FirstFiringRuleWins(rules[1..], input, i - 1);
    }
  }

  /** Conversely, every answer is the diagnosis of the first rule that fires. */
  lemma {:induction false} FirstFiringRuleIsFirst(rules: seq<Rule>, input: set<string>)
    ensures FirstFiringRule(rules, input).Some? ==>
      exists i :: IsFirstFiringRule(rules, input, i)
                  && FirstFiringRule(rules, input).value == rules[i].diagnosis
    decreases |rules|
  {
    if rules != [] {
      if RuleFires(rules[0], input) {
        assert IsFirstFiringRule(rules, input, 0);
      } else if FirstFiringRule(rules[1..], input).Some? {
        FirstFiringRuleIsFirst(rules[1..], input);
        var i :| IsFirstFiringRule(rules[1..], input, i)
                 && FirstFiringRule(rules[1..], input).value == rules[1..][i].diagnosis;
        assert IsFirstFiringRule(rules, input, i + 1);
      }
    }
  }

  /** Extra symptoms never make a firing rule stop firing, so a matched input
      stays matched, and the first rule to fire can only move earlier. */
  lemma {:induction false} MoreSymptomsKeepMatching(rules: seq<Rule>, a: set<string>, b: set<string>, i: int)
    requires a <= b
    requires IsFirstFiringRule(rules, a, i)
    ensures FirstFiringRule(rules, b).Some?
    ensures exists j :: 0 <= j <= i && IsFirstFiringRule(rules, b, j)
    decreases i
  {
    if RuleFires(rules[0], b) {
      assert IsFirstFiringRule(rules, b, 0);
    } else {
      assert !RuleFires(rules[0], a);
      assert IsFirstFiringRule(rules[1..], a, i - 1) by {
        assert forall j :: 0 <= j < i - 1 ==> rules[1..][j] == rules[j + 1];
      }
      MoreSymptomsKeepMatching(rules[1..], a, b, i - 1);
      var j :| 0 <= j <= i - 1 && IsFirstFiringRule(rules[1..], b, j);
      assert IsFirstFiringRule(rules, b, j + 1);
    }
  }

  /** Only the set of symptoms matters: their order and repetitions do not. */
  lemma EvaluateRulesIgnoresOrderAndDuplicates(rules: seq<Rule>, xs: seq<string>, ys: seq<string>)
    requires forall s :: s in xs <==> s in ys
    ensures EvaluateRules(rules, xs) == EvaluateRules(rules, ys)
  {
    assert SetOf(xs) == SetOf(ys);
  }

  /** A key written as comma-separated names denotes the set of those names, stripped. */
  lemma KeyTokensOfJoinedNames(names: seq<string>)
    requires |names| >= 1
    requires forall i :: 0 <= i < |names| ==> ',' !in names[i]
    ensures KeyTokens(Join(names, ',')) == set i | 0 <= i < |names| :: Strip(names[i])
  {
    SplitJoin(names, ',');
  }

  /** Containment, not equality: a rule keyed "a,b" fires on any input holding both
      symptoms, whatever else it holds, and not on an input holding only one of them. */
  lemma RuleNeedsContainmentNotEquality(a: string, b: string, c: string, d: string)
    requires ',' !in a && ',' !in b
    requires Strip(a) == a && Strip(b) == b
    requires a != b
    ensures EvaluateRules([Rule(Join([a, b], ','), d)], [c, b, a]) == Some(d)
    ensures EvaluateRules([Rule(Join([a, b], ','), d)], [a]) == None
  {
    KeyTokensOfJoinedNames([a, b]);
    assert KeyTokens(Join([a, b], ',')) == {a, b};
  }

  // ---------------------------------------------------------------------------
  // Overlap matcher: buscar_por_coincidencia
  // ---------------------------------------------------------------------------

  /** The symptoms a disease row lists: split on commas, each token stripped and
      then lower-cased. (The user's symptoms are not lower-cased.) */
  function RowTokens(text: string): set<string> {
    set p | p in Split(text, ',') :: Lower(Strip(p))
  }

  /** A row overlaps when it shares at least one symptom with the input. */
  predicate RowOverlaps(row: DiseaseRow, input: set<string>) {
    RowTokens(row.symptoms) * input != {}
  }

  /** Row `i` overlaps and no row before it does. */
  predicate IsFirstOverlappingRow(rows: seq<DiseaseRow>, input: set<string>, i: int) {
    0 <= i < |rows| && RowOverlaps(rows[i], input)
    && forall j :: 0 <= j < i ==> !RowOverlaps(rows[j], input)
  }

  /** The scan of the disease table against a symptom set: the disease of the first
      row that shares a symptom with it, or None when no row does. */
  function FirstOverlappingRow(rows: seq<DiseaseRow>, input: set<string>): (r: Option<string>)
    ensures r.None? <==> forall i :: 0 <= i < |rows| ==> !RowOverlaps(rows[i], input)
    ensures r.Some? ==> exists i :: 0 <= i < |rows| && rows[i].disease == r.value
    decreases |rows|
  {
    if rows == [] then None
    else if RowOverlaps(rows[0], input) then Some(rows[0].disease)
    else
      var r := FirstOverlappingRow(rows[1..], input);
      assert r.Some? ==> exists i :: 0 <= i < |rows| && rows[i].disease == r.value by {
        if r.Some? {
          var i :| 0 <= i < |rows[1..]| && rows[1..][i].disease == r.value;
          assert rows[i + 1].disease == r.value;
        }
      }
      r
  }

  /** `buscar_por_coincidencia(sintomas_usuario)`. */
  function FindByOverlap(rows: seq<DiseaseRow>, symptoms: seq<string>): Option<string> {
    FirstOverlappingRow(rows, SetOf(symptoms))
  }

  /** First overlap wins, not the largest overlap: when row `i` is the first row
      sharing any symptom, its disease is the answer, however many more symptoms
      a later row shares. */
  lemma {:induction false} FirstOverlapWins(rows: seq<DiseaseRow>, input: set<string>, i: int)
    requires IsFirstOverlappingRow(rows, input, i)
    ensures FirstOverlappingRow(rows, input) == Some(rows[i].disease)
    decreases i
  {
    if i > 0 {
      assert IsFirstOverlappingRow(rows[1..], input, i - 1) by {
        assert forall j :: 0 <= j < i - 1 ==> rows[1..][j] == rows[j + 1];
      }
      FirstOverlapWins(rows[1..], input, i - 1);
    }
  }

  /** Conversely, every answer is the disease of the first row that overlaps. */
  lemma {:induction false} FirstOverlappingRowIsFirst(rows: seq<DiseaseRow>, input: set<string>)
    ensures FirstOverlappingRow(rows, input).Some? ==>
      exists i :: IsFirstOverlappingRow(rows, input, i)
                  && FirstOverlappingRow(rows, input).value == rows[i].disease
    decreases |rows|
  {
    if rows != [] {
      if RowOverlaps(rows[0], input) {
        assert IsFirstOverlappingRow(rows, input, 0);
      } else if FirstOverlappingRow(rows[1..], input).Some? {
        FirstOverlappingRowIsFirst(rows[1..], input);
        var i :| IsFirstOverlappingRow(rows[1..], input, i)
                 && FirstOverlappingRow(rows[1..], input).value == rows[1..][i].disease;
        assert IsFirstOverlappingRow(rows, input, i + 1);
      }
    }
  }

  /** Since only the table side is lower-cased, a user symptom that contains an
      upper-case letter can never be the shared symptom: if every user symptom
      does, no row overlaps. */
  lemma UpperCaseSymptomsNeverOverlap(rows: seq<DiseaseRow>, symptoms: seq<string>)
    requires forall s :: s in symptoms ==> exists k :: 0 <= k < |s| && IsUpper(s[k])
    ensures FindByOverlap(rows, symptoms) == None
  {
  }
}
