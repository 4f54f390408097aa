/** The diagnosis cascade of app.py's `diagnosticar` (lines 144-183): translate the
    reported symptoms, build the 0/1 feature vector, gate the classifier's answer
    on its confidence, fall back on the exact rule matcher and then on the overlap
    matcher, and either fail or attach a recommendation and a severity.

    `Cascade` and its stage functions specify the decision; `Diagnose` is the
    step-by-step procedure of the source, proved to compute `Cascade`. */
module Diagnosis {
  import opened Optional
  import opened Text
  import opened Matchers

  /** The sentinel written into `diagnostico` when confidence is too low. */
  const INCONCLUSIVE: string :=
    INCONCLUSIVE_PREFIX + ". Se recomienda una consulta m\U{E9}dica presencial."
  /** What `startswith` tests for when deciding that a diagnosis is inconclusive. */
  const INCONCLUSIVE_PREFIX: string := "Diagn\U{F3}stico no concluyente"

  /** The classifier's label is adopted only at or above this confidence. */
  const ACCEPT_THRESHOLD: real := 40.0
  /** Below this confidence the diagnosis is overwritten with the sentinel. */
  const REJECT_THRESHOLD: real := 30.0
  /** The confidence given to a diagnosis found by either rule matcher. */
  const RULE_CONFIDENCE: real := 100.0

  const DEFAULT_RECOMMENDATION: string :=
    "Consulte a un profesional m\U{E9}dico para una valoraci\U{F3}n completa."
  const DEFAULT_SEVERITY: string := "Desconocida"

  /** The fixed replies of the two failure outcomes. */
  const NO_SYMPTOMS_REPLY: string := "No se detectaron s\U{ED}ntomas v\U{E1}lidos."
  const NO_DIAGNOSIS_REPLY: string :=
    "No se pudo determinar un diagn\U{F3}stico confiable. Por favor, consulte a un m\U{E9}dico."

  /** The tables loaded once at start-up and only read afterwards. */
  datatype Knowledge = Knowledge(
    inverse: map<string, string>,          // diccionario_invertido: Spanish name -> column name
    columns: seq<string>,                  // columnas_sintomas, in column order
    rules: seq<Rule>,                      // reglas, in table order
    diseases: seq<DiseaseRow>,             // df_enfermedades, in row order
    recommendations: map<string, string>,  // recomendaciones
    severities: map<string, string>)       // gravedades

  /** A class-probability row of `predict_proba`: at least one class, each a probability. */
  type Distribution = p: seq<real> | |p| > 0 && forall i :: 0 <= i < |p| ==> 0.0 <= p[i] <= 1.0
    witness [1.0]

  /** The trained model, seen only through its two calls. Nothing ties the label of
      `predict` to the largest probability of `predictProba`; the source never checks it. */
  datatype Classifier = Classifier(
    predictProba: seq<int> -> Distribution,
    predict: seq<int> -> string)

  /** The local variables `diagnostico` and `confianza` between two stages. */
  datatype State = State(diagnosis: Option<string>, confidence: real)

  /** What a request ends with. */
  datatype Response =
    | NoSymptomsDetected      // no symptom was extracted (line 145)
    | NoReliableDiagnosis     // no stage produced a usable diagnosis (line 180)
    | Diagnosed(diagnosis: string, confidence: real, recommendation: string, severity: string)

  /** The fixed reply text of the two failure outcomes; a diagnosis has none (its
      formatted reply is not modelled). */
  function FixedReply(r: Response): Option<string> {
    match r
    case NoSymptomsDetected => Some(NO_SYMPTOMS_REPLY)
    case NoReliableDiagnosis => Some(NO_DIAGNOSIS_REPLY)
    case Diagnosed(_, _, _, _) => None
  }

  /** Python truthiness of an optional string: present and non-empty. */
  predicate Truthy(d: Option<string>) {
    d.Some? && d.value != ""
  }

  /** `not diagnostico or diagnostico.startswith("Diagnóstico no concluyente")`. */
  predicate Unresolved(d: Option<string>) {
    !Truthy(d) || StartsWith(d.value, INCONCLUSIVE_PREFIX)
  }

  /** `diagnostico in reglas.values()`; None is never a rule's diagnosis. */
  predicate IsRuleDiagnosis(d: Option<string>, rules: seq<Rule>) {
    d.Some? && d.value in RuleDiagnoses(rules)
  }

  /** `d.get(key, default)`. */
  function Lookup(m: map<string, string>, key: string, default: string): string {
    if key in m then m[key] else default
  }

  /** Python's `max` over a non-empty list of probabilities. */
  function MaxOf(p: seq<real>): (m: real)
    requires |p| > 0
    ensures m in p
    ensures forall i :: 0 <= i < |p| ==> p[i] <= m
    decreases |p|
  {
    if |p| == 1 then p[0]
    else
      var rest := MaxOf(p[1..]);
      if p[0] >= rest then p[0] else rest
  }

  // ---------------------------------------------------------------------------
  // Translation and vectorisation (lines 147-153)
  // ---------------------------------------------------------------------------

  /** The symptoms that have an entry in the inverted dictionary, mapped through it,
      in input order; the others are dropped. */
  function Translate(symptoms: seq<string>, inverse: map<string, string>): (r: seq<string>)
    ensures |r| <= |symptoms|
    ensures forall y :: y in r <==> exists x :: x in symptoms && x in inverse && inverse[x] == y
    decreases |symptoms|
  {
    if symptoms == [] then []
    else
      var rest := Translate(symptoms[1..], inverse);
      assert forall x :: x in symptoms[1..] ==> x in symptoms;
      assert forall x :: x in symptoms ==> x == symptoms[0] || x in symptoms[1..];
      (if symptoms[0] in inverse then [inverse[symptoms[0]]] else []) + rest
  }

  /** The translated symptoms that are known feature columns, in order. */
  function Recognize(translated: seq<string>, columns: seq<string>): (r: seq<string>)
    ensures |r| <= |translated|
    ensures forall y :: y in r <==> y in translated && y in columns
    decreases |translated|
  {
    if translated == [] then []
    else
      var rest := Recognize(translated[1..], columns);
      assert forall x :: x in translated ==> x == translated[0] || x in translated[1..];
      (if translated[0] in columns then [translated[0]] else []) + rest
  }

  /** `sintomas_reconocidos` for a request. */
  function Recognized(k: Knowledge, symptoms: seq<string>): seq<string> {
    Recognize(Translate(symptoms, k.inverse), k.columns)
  }

  /** The one-row `entrada_binaria`: one entry per known column, 1 exactly at the
      columns that are recognised symptoms, 0 elsewhere. */
  function Vectorize(columns: seq<string>, recognized: seq<string>): (v: seq<int>)
    ensures |v| == |columns|
    ensures forall j :: 0 <= j < |v| ==> (v[j] == 0 || v[j] == 1)
    ensures forall j :: 0 <= j < |v| ==> (v[j] == 1 <==> columns[j] in recognized)
  {
    seq(|columns|, j requires 0 <= j < |columns| => if columns[j] in recognized then 1 else 0)
  }

  /** The feature vector of a request. */
  function FeatureVector(k: Knowledge, symptoms: seq<string>): seq<int> {
    Vectorize(k.columns, Recognized(k, symptoms))
  }

  /** Translation distributes over concatenation: each symptom is translated (or
      dropped) on its own and the results keep the input order. */
  lemma {:induction false} TranslateAppend(xs: seq<string>, ys: seq<string>, inverse: map<string, string>)
    ensures Translate(xs + ys, inverse) == Translate(xs, inverse) + Translate(ys, inverse)
    decreases |xs|
  {
    if xs == [] {
      assert xs + ys == ys;
    } else {
      assert (xs + ys)[0] == xs[0];
      assert (xs + ys)[1..] == xs[1..] + ys;
      TranslateAppend(xs[1..], ys, inverse);
    }
  }

  /** Recognition distributes over concatenation in the same way. */
  lemma {:induction false} RecognizeAppend(xs: seq<string>, ys: seq<string>, columns: seq<string>)
    ensures Recognize(xs + ys, columns) == Recognize(xs, columns) + Recognize(ys, columns)
    decreases |xs|
  {
    if xs == [] {
      assert xs + ys == ys;
    } else {
      assert (xs + ys)[0] == xs[0];
      assert (xs + ys)[1..] == xs[1..] + ys;
      RecognizeAppend(xs[1..], ys, columns);
    }
  }

  // ---------------------------------------------------------------------------
  // The stages (lines 155-183)
  // ---------------------------------------------------------------------------

  /** Lines 155-162: with no recognised symptom the model is not consulted and the
      state stays (None, 0); otherwise confidence is 100 times the largest class
      probability and the predicted label is taken only at confidence 40 or more. */
  function ClassifierStage(model: Classifier, recognized: seq<string>, vector: seq<int>): (s: State)
    ensures recognized == [] ==> s == State(None, 0.0)
    ensures 0.0 <= s.confidence <= 100.0
    ensures s.diagnosis.Some? ==> s.confidence >= ACCEPT_THRESHOLD && s.diagnosis.value == model.predict(vector)
    ensures recognized != [] ==>
      && s.confidence == MaxOf(model.predictProba(vector)) * 100.0
      && (s.diagnosis.Some? <==> s.confidence >= ACCEPT_THRESHOLD)
  {
    if recognized == [] then State(None, 0.0)
    else
      var confidence := MaxOf(model.predictProba(vector)) * 100.0;
      State(if confidence >= ACCEPT_THRESHOLD then Some(model.predict(vector)) else None, confidence)
  }

  /** Lines 164-165: below 30 the diagnosis, whatever it was, becomes the sentinel. */
  function Downgrade(s: State): (r: State)
    ensures r.confidence == s.confidence
    ensures s.confidence < REJECT_THRESHOLD ==> r.diagnosis == Some(INCONCLUSIVE) && Unresolved(r.diagnosis)
    ensures s.confidence >= REJECT_THRESHOLD ==> r == s
  {
    if s.confidence < REJECT_THRESHOLD then s.(diagnosis := Some(INCONCLUSIVE)) else s
  }

  /** Lines 167-171: only while unresolved, a usable answer of the exact matcher
      (run on the original symptom list) replaces the diagnosis, with confidence 100. */
  function ExactRuleStage(s: State, rules: seq<Rule>, symptoms: seq<string>): (r: State)
    ensures !Unresolved(s.diagnosis) ==> r == s
    ensures r != s ==> r == State(EvaluateRules(rules, symptoms), RULE_CONFIDENCE) && Truthy(r.diagnosis)
  {
    if Unresolved(s.diagnosis) then
      var byRule := EvaluateRules(rules, symptoms);
      if Truthy(byRule) then State(byRule, RULE_CONFIDENCE) else s
    else s
  }

  /** Lines 173-177: only while unresolved and the current diagnosis is not itself
      a rule's diagnosis, a usable answer of the overlap matcher replaces it, with
      confidence 100. */
  function OverlapStage(s: State, rules: seq<Rule>, rows: seq<DiseaseRow>, symptoms: seq<string>): (r: State)
    ensures !Unresolved(s.diagnosis) || IsRuleDiagnosis(s.diagnosis, rules) ==> r == s
    ensures r != s ==> r == State(FindByOverlap(rows, symptoms), RULE_CONFIDENCE) && Truthy(r.diagnosis)
    ensures Unresolved(s.diagnosis) && !IsRuleDiagnosis(s.diagnosis, rules) && Truthy(FindByOverlap(rows, symptoms))
            ==> r == State(FindByOverlap(rows, symptoms), RULE_CONFIDENCE)
  {
    if Unresolved(s.diagnosis) && !IsRuleDiagnosis(s.diagnosis, rules) then
      var byOverlap := FindByOverlap(rows, symptoms);
      if Truthy(byOverlap) then State(byOverlap, RULE_CONFIDENCE) else s
    else s
  }

  /** Lines 179-183: fail while unresolved; otherwise look up the recommendation and
      the severity, with the fixed fallbacks for a diagnosis missing from a table. */
  function Conclude(s: State, recommendations: map<string, string>, severities: map<string, string>): (r: Response)
    ensures r.NoReliableDiagnosis? <==> Unresolved(s.diagnosis)
    ensures r.Diagnosed? ==> Some(r.diagnosis) == s.diagnosis && r.confidence == s.confidence
    ensures r.Diagnosed? ==> r.recommendation == (if r.diagnosis in recommendations then recommendations[r.diagnosis] else DEFAULT_RECOMMENDATION)
    ensures r.Diagnosed? ==> r.severity == (if r.diagnosis in severities then severities[r.diagnosis] else DEFAULT_SEVERITY)
    ensures !r.NoSymptomsDetected?
  {
    if Unresolved(s.diagnosis) then NoReliableDiagnosis
    else
      var d := s.diagnosis.value;
      Diagnosed(d, s.confidence, Lookup(recommendations, d, DEFAULT_RECOMMENDATION),
                Lookup(severities, d, DEFAULT_SEVERITY))
  }

  /** The state once the classifier has been consulted and gated. */
  function GatedState(k: Knowledge, model: Classifier, symptoms: seq<string>): State {
    Downgrade(ClassifierStage(model, Recognized(k, symptoms), FeatureVector(k, symptoms)))
  }

  /** The state after both rule stages. */
  function FinalState(k: Knowledge, model: Classifier, symptoms: seq<string>): State {
    var gated := GatedState(k, model, symptoms);
    OverlapStage(ExactRuleStage(gated, k.rules, symptoms), k.rules, k.diseases, symptoms)
  }

  /** The whole decision for one request. */
  function Cascade(k: Knowledge, model: Classifier, symptoms: seq<string>): Response {
    if symptoms == [] then NoSymptomsDetected
    else Conclude(FinalState(k, model, symptoms), k.recommendations, k.severities)
  }

  // ---------------------------------------------------------------------------
  // Properties of the cascade
  // ---------------------------------------------------------------------------

  /** With no recognised symptom the classifier is never consulted: confidence stays 0,
      the diagnosis becomes the sentinel, and the response is the same whatever the model. */
  lemma NoRecognizedSymptomIgnoresClassifier(k: Knowledge, m1: Classifier, m2: Classifier, symptoms: seq<string>)
    requires Recognized(k, symptoms) == []
    ensures GatedState(k, m1, symptoms) == State(Some(INCONCLUSIVE), 0.0)
    ensures Cascade(k, m1, symptoms) == Cascade(k, m2, symptoms)
  {
  }

  /** After the two thresholds: a confidence below 30 always leaves the sentinel; any other
      diagnosis present is the model's label with confidence at least 40; and a confidence
      in [30, 40) leaves no diagnosis at all rather than the sentinel. */
  lemma ConfidenceGates(k: Knowledge, model: Classifier, symptoms: seq<string>)
    ensures var g := GatedState(k, model, symptoms);
      && (g.confidence < REJECT_THRESHOLD ==> g.diagnosis == Some(INCONCLUSIVE))
      && (g.confidence >= REJECT_THRESHOLD && g.diagnosis.Some? ==>
            g.confidence >= ACCEPT_THRESHOLD && g.diagnosis.value == model.predict(FeatureVector(k, symptoms)))
      && (REJECT_THRESHOLD <= g.confidence < ACCEPT_THRESHOLD ==> g.diagnosis == None)
  {
  }

  /** When the exact matcher gives a usable answer it becomes the diagnosis with confidence
      100, and the overlap matcher is then skipped: either the answer is resolved, or it
      starts with the sentinel prefix but is a rule's diagnosis, which the guard excludes. */
  lemma ExactMatchSkipsOverlap(s: State, rules: seq<Rule>, rows: seq<DiseaseRow>, symptoms: seq<string>)
    requires Unresolved(s.diagnosis)
    requires Truthy(EvaluateRules(rules, symptoms))
    ensures ExactRuleStage(s, rules, symptoms) == State(EvaluateRules(rules, symptoms), RULE_CONFIDENCE)
    ensures OverlapStage(ExactRuleStage(s, rules, symptoms), rules, rows, symptoms)
            == ExactRuleStage(s, rules, symptoms)
  {
  }

  /** A successful diagnosis comes from one of three places: the exact matcher or the
      overlap matcher, with confidence exactly 100, or the model's label, with a confidence
      between 40 and 100. In every case the confidence lies in [40, 100]. */
  lemma SuccessProvenance(k: Knowledge, model: Classifier, symptoms: seq<string>)
    ensures var r := Cascade(k, model, symptoms);
      r.Diagnosed? ==>
        && ACCEPT_THRESHOLD <= r.confidence <= RULE_CONFIDENCE
        && ((r.confidence == RULE_CONFIDENCE
              && (Some(r.diagnosis) == EvaluateRules(k.rules, symptoms)
                  || Some(r.diagnosis) == FindByOverlap(k.diseases, symptoms)))
            || r.diagnosis == model.predict(FeatureVector(k, symptoms)))
  {
  }

  /** When the exact matcher has nothing usable and the state after the thresholds is
      unresolved and not a rule's diagnosis, a usable overlap answer is the final
      diagnosis, with confidence 100 and its table recommendation and severity. */
  lemma OverlapAnswerStands(k: Knowledge, model: Classifier, symptoms: seq<string>)
    requires symptoms != []
    requires Unresolved(GatedState(k, model, symptoms).diagnosis)
    requires !IsRuleDiagnosis(GatedState(k, model, symptoms).diagnosis, k.rules)
    requires !Truthy(EvaluateRules(k.rules, symptoms))
    requires Truthy(FindByOverlap(k.diseases, symptoms))
    requires !StartsWith(FindByOverlap(k.diseases, symptoms).value, INCONCLUSIVE_PREFIX)
    ensures var d := FindByOverlap(k.diseases, symptoms).value;
      Cascade(k, model, symptoms)
      == Diagnosed(d, RULE_CONFIDENCE, Lookup(k.recommendations, d, DEFAULT_RECOMMENDATION),
                   Lookup(k.severities, d, DEFAULT_SEVERITY))
  {
  }

  /** The request fails exactly when some symptom was reported and the diagnosis is
      still unset or inconclusive after both rule stages. */
  lemma FailureExactlyWhenUnresolved(k: Knowledge, model: Classifier, symptoms: seq<string>)
    ensures Cascade(k, model, symptoms).NoReliableDiagnosis?
            <==> symptoms != [] && Unresolved(FinalState(k, model, symptoms).diagnosis)
    ensures Cascade(k, model, symptoms).NoSymptomsDetected? <==> symptoms == []
  {
  }

  /** A confident, usable label of the model is the answer: no rule stage runs, and the
      recommendation and severity are looked up for it. */
  lemma ConfidentLabelStands(k: Knowledge, model: Classifier, symptoms: seq<string>)
    requires Recognized(k, symptoms) != []
    requires MaxOf(model.predictProba(FeatureVector(k, symptoms))) * 100.0 >= ACCEPT_THRESHOLD
    requires !Unresolved(Some(model.predict(FeatureVector(k, symptoms))))
    ensures var answer := model.predict(FeatureVector(k, symptoms));
      Cascade(k, model, symptoms)
      == Diagnosed(answer, MaxOf(model.predictProba(FeatureVector(k, symptoms))) * 100.0,
                   Lookup(k.recommendations, answer, DEFAULT_RECOMMENDATION),
                   Lookup(k.severities, answer, DEFAULT_SEVERITY))
  {
  }

  /** The rule stages and the conclusion depend on the state only through whether it is
      resolved and whether it is a rule's diagnosis. So any two unresolved states that no
      rule yields — the sentinel written below 30, or the None left in [30, 40) — end
      in the same response: the gap between the two thresholds is not observable. */
  lemma UnresolvedStatesConverge(a: State, b: State, k: Knowledge, symptoms: seq<string>)
    requires Unresolved(a.diagnosis) && Unresolved(b.diagnosis)
    requires !IsRuleDiagnosis(a.diagnosis, k.rules) && !IsRuleDiagnosis(b.diagnosis, k.rules)
    ensures Conclude(OverlapStage(ExactRuleStage(a, k.rules, symptoms), k.rules, k.diseases, symptoms),
                     k.recommendations, k.severities)
         == Conclude(OverlapStage(ExactRuleStage(b, k.rules, symptoms), k.rules, k.diseases, symptoms),
                     k.recommendations, k.severities)
  {
  }

  // ---------------------------------------------------------------------------
  // The procedure
  // ---------------------------------------------------------------------------

  /** Lines 150-153: a row of zeros, one per known column, then a 1 written at the
      column of each recognised symptom in turn. */
  method BuildFeatureVector(columns: seq<string>, recognized: seq<string>) returns (v: seq<int>)
    ensures v == Vectorize(columns, recognized)
  {
    var a := new int[|columns|](_ => 0);
    var i := 0;
    while i < |recognized|
      invariant 0 <= i <= |recognized|
      invariant a.Length == |columns|
      invariant forall c :: 0 <= c < a.Length ==>
        a[c] == (if columns[c] in recognized[..i] then 1 else 0)
    {
      var name := recognized[i];
      assert recognized[..i + 1] == recognized[..i] + [name];
      var j := 0;
      while j < a.Length
        invariant 0 <= j <= a.Length
        invariant forall c :: 0 <= c < j ==>
          a[c] == (if columns[c] in recognized[..i + 1] then 1 else 0)
        invariant forall c :: j <= c < a.Length ==>
          a[c] == (if columns[c] in recognized[..i] then 1 else 0)
      {
        if columns[j] == name {
          a[j] := 1;
        }
        j := j + 1;
      }
      i := i + 1;
    }
    assert recognized[..i] == recognized;
    v := a[..];
  }

  /** `diagnosticar` from the extracted symptom list onwards, updating `diagnostico`
      and `confianza` stage by stage. */
  method Diagnose(k: Knowledge, model: Classifier, symptoms: seq<string>) returns (r: Response)
    ensures r == Cascade(k, model, symptoms)
  {
    if symptoms == [] {
      return NoSymptomsDetected;
    }
    var translated := Translate(symptoms, k.inverse);
    var recognized := Recognize(translated, k.columns);

    var vector := BuildFeatureVector(k.columns, recognized);

    var diagnosis: Option<string> := None;
    var confidence: real := 0.0;
    if recognized != [] {
      var probabilities := model.predictProba(vector);
      confidence := MaxOf(probabilities) * 100.0;
      if confidence >= ACCEPT_THRESHOLD {
        diagnosis := Some(model.predict(vector));
      }
    }
    if confidence < REJECT_THRESHOLD {
      diagnosis := Some(INCONCLUSIVE);
    }

    if Unresolved(diagnosis) {
      var byRule := EvaluateRules(k.rules, symptoms);
      if Truthy(byRule) {
        diagnosis := byRule;
        confidence := RULE_CONFIDENCE;
      }
    }
    if Unresolved(diagnosis) && !IsRuleDiagnosis(diagnosis, k.rules) {
      var byOverlap := FindByOverlap(k.diseases, symptoms);
      if Truthy(byOverlap) {
        diagnosis := byOverlap;
        confidence := RULE_CONFIDENCE;
      }
    }

    if Unresolved(diagnosis) {
      return NoReliableDiagnosis;
    }
    var recommendation := Lookup(k.recommendations, diagnosis.value, DEFAULT_RECOMMENDATION);
    var severity := Lookup(k.severities, diagnosis.value, DEFAULT_SEVERITY);
    r := Diagnosed(diagnosis.value, confidence, recommendation, severity);
  }
}
