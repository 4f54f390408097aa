# Diagnosis cascade of the symptom assistant

This project models, in Dafny, the decision core of a Flask symptom-to-diagnosis
assistant (`app.py`). Given the list of Spanish symptom names extracted from a
user's message, the assistant:

1. stops at once when the list is empty;
2. translates each symptom through the inverted Spanish→English dictionary, dropping
   the ones it does not know, and keeps those that are feature columns of the trained
   model;
3. builds a one-row 0/1 feature vector over the model's columns;
4. when at least one symptom was recognised, asks the model for its class
   probabilities (confidence = 100 × the largest) and adopts its predicted label only at
   confidence ≥ 40;
5. overwrites the diagnosis with the sentinel "Diagnóstico no concluyente…" whenever
   confidence is below 30;
6. while the diagnosis is unset or starts with that sentinel, tries the exact rule
   matcher `evaluar_reglas` (first rule whose comma-separated key set is contained in
   the symptoms), then, if the diagnosis is not itself a rule's diagnosis, the overlap
   matcher `buscar_por_coincidencia` (first disease row sharing any symptom); a rule
   answer sets confidence to 100;
7. fails with "No se pudo determinar un diagnóstico confiable…" if still unresolved,
   and otherwise looks up a recommendation and a severity, with the fallbacks
   "Consulte a un profesional médico para una valoración completa." and "Desconocida".

Files:

- `optional.dfy` — `Option`, for Python's "value or None".
- `text.dfy` — the Python string built-ins: `split(",")` (with its inverse `Join` and
  the round trip), `strip()` (Python's whitespace set) and `lower()`, which the matchers
  apply to table text, and `startswith`, which the cascade applies to the current
  diagnosis (app.py:167, 173, 179).
- `matchers.dfy` — the rule table and the disease table as ordered sequences, the two
  matchers as recursive scans, and their first-match characterisations.
- `diagnosis.dfy` — the loaded tables (`Knowledge`), the classifier as two opaque
  functions (`Classifier`), the cascade as a chain of stage functions over the pair
  (`diagnostico`, `confianza`) ending in `Cascade`, the imperative `Diagnose` proved to
  compute `Cascade` (with `BuildFeatureVector` filling the vector in an array), and the
  properties of the cascade.

Facts about app.py that the model keeps as they are:

- `predict_proba` (app.py:159) and `predict` (app.py:162) are separate calls, and the
  code never checks that the predicted label is the class of largest probability. The
  model keeps two independent functions.
- With recognised symptoms, a confidence in [30, 40) leaves `diagnostico` as `None`
  rather than the sentinel (app.py:161-165). `ConfidenceGates` states this.
  `UnresolvedStatesConverge` shows that both cases end in the same response unless the
  sentinel is itself a rule's diagnosis.
- The translated and recognised lists keep order and duplicates (app.py:147-151). Only
  the two matchers turn their input into a set (app.py:44, 62).

`Cascade` is a function of the request and the tables, so two calls with the same input
and unchanged tables give the same response by construction.

## Model

| member | source | states |
|---|---|---|
| `Text.Split` | app.py:46 | `key.split(",")` always yields at least one piece; no piece contains the separator; joining the pieces with it restores the input |
| `Text.SplitJoin` | app.py:46 | round trip: splitting the comma-join of separator-free pieces returns exactly those pieces |
| `Text.Strip` | app.py:46 | `strip()` leaves no whitespace at either end and never lengthens the text |
| `Text.StripIgnoresPadding` | app.py:46 | `strip()` removes exactly the surrounding whitespace: padding with whitespace on either side does not change the result |
| `Text.StripFixpoint` | app.py:46 | a string strips to itself if and only if it has no whitespace at either end |
| `Text.Lower` | app.py:64 | `lower()` keeps the length, keeps every character that is not an upper-case letter, and replaces each upper-case letter by its lower-case partner |
| `Text.LowerFixpoint` | app.py:64 | a string lowers to itself exactly when it holds no upper-case letter |
| `Text.LowerIdempotent` | app.py:64 | lowering twice gives the same as lowering once |
| `Matchers.FirstFiringRule` | app.py:34-49 | the rule scan that `EvaluateRules` runs on `set(sintomas)` returns None exactly when no rule's key set (`KeyTokens`: split on commas, stripped) is contained in the input; any answer is one of the values of `reglas` |
| `Matchers.FirstFiringRuleWins` | app.py:45-48 | if rule i is the first whose key set is contained in the input, the answer is rule i's diagnosis, whatever later rules match |
| `Matchers.FirstFiringRuleIsFirst` | app.py:45-49 | every answer is the diagnosis of the first rule, in table order, whose key set is contained in the input |
| `Matchers.MoreSymptomsKeepMatching` | app.py:47 | adding symptoms never loses a match: the first matching rule for a larger input is at the same position or earlier |
| `Matchers.EvaluateRulesIgnoresOrderAndDuplicates` | app.py:44 | `evaluar_reglas` depends only on which symptoms are present, not on their order or repetitions |
| `Matchers.KeyTokensOfJoinedNames` | app.py:46 | a rule key written as comma-separated names denotes the set of those names, each stripped |
| `Matchers.RuleNeedsContainmentNotEquality` | app.py:46-47 | a rule keyed "a,b" fires on any input containing a and b plus anything else, and not on an input with only a |
| `Matchers.FirstOverlappingRow` | app.py:52-67 | the disease scan that `FindByOverlap` runs on `set(sintomas_usuario)` returns None exactly when no row's symptom set (`RowTokens`: split on commas, stripped, lower-cased) meets the input; any answer is some row's disease |
| `Matchers.FirstOverlapWins` | app.py:63-66 | if row i is the first row sharing any symptom with the input, its disease is the answer, however many more symptoms a later row shares |
| `Matchers.FirstOverlappingRowIsFirst` | app.py:63-67 | every answer is the disease of the first row, in table order, that shares a symptom with the input |
| `Matchers.UpperCaseSymptomsNeverOverlap` | app.py:62-65 | only the table side is lower-cased, so if every user symptom contains an upper-case letter, the overlap matcher finds nothing |
| `Diagnosis.MaxOf` | app.py:160 | `max(probabilidades)` is an element of the row and no element exceeds it |
| `Diagnosis.Translate` | app.py:147-148 | the translated list has no more entries than the input, and a name is in it exactly when some input symptom maps to it in the inverted dictionary |
| `Diagnosis.TranslateAppend` | app.py:147-148 | translation works symptom by symptom and keeps input order: translating a concatenation concatenates the translations |
| `Diagnosis.Recognize` | app.py:151 | a name is recognised exactly when it is both translated and a known column |
| `Diagnosis.RecognizeAppend` | app.py:151 | recognition keeps order and works element by element: it distributes over concatenation |
| `Diagnosis.Vectorize` | app.py:150-153 | the feature vector has one 0/1 entry per known column, 1 exactly at the columns that are recognised symptoms |
| `Diagnosis.BuildFeatureVector` | app.py:150-153 | filling a zero row and then writing 1 at each recognised symptom's column yields exactly `Vectorize` |
| `Diagnosis.ClassifierStage` | app.py:155-162 | with nothing recognised the state is (None, 0); otherwise confidence is 100 × the largest class probability, a diagnosis is present exactly when confidence ≥ 40, and it is then the model's label; confidence lies in [0, 100] |
| `Diagnosis.Downgrade` | app.py:164-165 | below 30 the diagnosis becomes the sentinel, which counts as unresolved; at 30 or more nothing changes; confidence is untouched |
| `Diagnosis.ExactRuleStage` | app.py:167-171 | a resolved state is left alone; any change sets the exact matcher's non-empty answer with confidence 100 |
| `Diagnosis.OverlapStage` | app.py:173-177 | a resolved state, or one holding a rule's diagnosis, is left alone; otherwise a non-empty overlap answer is adopted with confidence 100; any change is that adoption |
| `Diagnosis.Conclude` | app.py:179-183 | the failure outcome exactly when `Unresolved` (unset, empty, or starting with the sentinel prefix); otherwise the diagnosis and confidence of the state, with the recommendation and the severity from their tables or the fixed fallbacks |
| `Diagnosis.Diagnose` | app.py:144-183 | the step-by-step procedure computes exactly `Cascade`, the chain of the stage functions whose properties the lemmas below state |
| `Diagnosis.NoRecognizedSymptomIgnoresClassifier` | app.py:155-165 | with no recognised symptom, confidence stays 0, the diagnosis is the sentinel, and the response is the same for every classifier |
| `Diagnosis.ConfidenceGates` | app.py:158-165 | below 30 the sentinel; otherwise any diagnosis is the model's label at confidence ≥ 40; in [30, 40) no diagnosis is set |
| `Diagnosis.ExactMatchSkipsOverlap` | app.py:167-177 | when the exact matcher gives a usable answer it is adopted with confidence 100 and the overlap stage leaves it in place |
| `Diagnosis.SuccessProvenance` | app.py:158-183 | every success has confidence in [40, 100] and comes from the exact matcher or the overlap matcher at confidence exactly 100, or from the model's label |
| `Diagnosis.OverlapAnswerStands` | app.py:167-183 | when the thresholds leave an unresolved state that is not a rule's diagnosis and the exact matcher has nothing usable, a usable overlap answer is the final diagnosis at confidence 100, with its table recommendation and severity |
| `Diagnosis.FailureExactlyWhenUnresolved` | app.py:144-180 | an empty input gives the "no symptoms" reply; otherwise the request fails exactly when the diagnosis is unset or inconclusive after both rule stages |
| `Diagnosis.ConfidentLabelStands` | app.py:158-183 | a usable model label at confidence ≥ 40 is the final answer, with its table recommendation and severity |
| `Diagnosis.UnresolvedStatesConverge` | app.py:164-180 | two unresolved states that are not rule diagnoses (the sentinel below 30, None in [30, 40)) end in the same response |

## Left out

- Web plumbing: Flask routing, `request.get_json`, `jsonify`, `render_template` and the
  formatted text of a successful response (app.py:126-145, 185-189, 202). The response
  is a datatype; `FixedReply` gives the fixed texts of the two failure outcomes.
- Symptom extraction (`extraer_sintomas_nlp`, app.py:142) and voice output (`hablar`,
  app.py:192) are foreign modules. The symptom list is an input, and the voice call is
  not modelled.
- The trained model (`joblib.load`, `predict_proba`, `predict`, app.py:20, 159, 162) is
  opaque. It is a pair of total functions of the feature vector. Its probability rows
  are assumed non-empty with entries in [0, 1], so `max` of an empty row (a Python
  error) does not arise.
- Floating point: confidence is an exact `real`. Rounding in `max(...) * 100` and in
  the comparisons with 30 and 40 is not modelled.
- Start-up loading of the CSV and JSON files, and the building of the inverted
  dictionary (app.py:20-31). These tables are given values. The rule table and the
  disease table are sequences in their load order. The inverted dictionary, the
  recommendations and the severities are maps.
- `Text.Lower`: only the ASCII and Latin-1 upper-case letters are lowered. Python's
  full Unicode case mapping, including mappings to several characters, is not modelled.
- A disease row whose symptom cell is missing (pandas NaN, on which `split` raises) is
  not modelled. Every row holds a string.
- A classifier label that is not a string is not modelled.
- `exportar_pdf` (app.py:70-123) and the session history append (app.py:194-200):
  document rendering and session state.
