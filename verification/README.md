# Diagram chat core in Dafny

A model of the request-to-diagram pipeline of a Huawei Cloud architecture
assistant (`diagram_chat.py`) and of its chat history (`chat_history.py`).

- **Query** strips the `@diagram` marker off a request (`strip_diagram_intent`).
  It also folds the six clarification answers into the retrieval query, through
  the keyword table (`enhance_query_with_answers`).
- **Clarify** looks up the clarification question at a position of the
  configured order (`get_clarification_questions`). The configuration is a
  parameter.
- **Schema** holds the required keys shared by the generation prompt and the
  validator.
- **Validate** collects every structural and referential problem of a decoded
  payload, in the order the source reports them (`validate_payload`).
- **Discovery**, **Repair** and **Normalize** make up the repair pass
  (`normalize_payload`):
  - discovery finds undeclared relationship endpoints and appends external
    nodes for them;
  - repair renumbers, labels and trims each technology and trims each
    relationship;
  - normalize strings the stages together and supplies the default
    explanation.
- **Recheck** relates the validator to the repair pass.
- **Flow** is `generate_diagram_flow`. It asks questions until six answers are
  in, then retrieves, generates, checks, annotates and repairs.
- **History** is the `ChatHistory` class. It keeps a bounded list of
  exchanges and renders them as prompt context.
- **Json**, **Text** and **Wrappers** give Python's value semantics:
  - dict lookup and assignment in insertion order;
  - truthiness, hashability and `==` across `int`, `float` and `bool`;
  - iteration and `str.strip`;
  - each exception the source can raise, as a `Result` failure.

The collaborators the source calls but this model does not contain are
parameters. These are the retriever, the language model together with its
prompt, `json.loads`, the order in which a Python set is walked, and the
language model's judgement of related queries. The lemmas about the flow
state which of these a given path never consults.

Two behaviours of the source deserve a mention.

- **The repair pass does not settle in one run.** Line 178 tests a technology's
  label for emptiness before line 188 strips it. A label of blanks therefore
  survives the first pass as `""` and is replaced only by a second pass (see
  Findings). `Repair.LabelRule` selects the label test: `AsWritten` is the
  source's, and `Corrected` tests the stripped label. With `Corrected` the pass
  is proved idempotent.
- **Repair and validation disagree about `"All Services"`.** The repair pass
  treats that endpoint name as known (line 156). The validator has no such
  exception (lines 142-145). So validating a repaired payload can still report
  `"All Services"` as undeclared, though no other endpoint (the Recheck lemmas).

## Model

| member | source | states |
|---|---|---|
| Query.StripDiagramIntent | diagram_chat.py:29-36 | The result is empty only for an empty request. Otherwise it is the request unchanged or a stripped string no longer than it. A blank request comes back as given, and a request without the marker comes back stripped. |
| Query.MarkerRemoved | diagram_chat.py:29-36 | A request made of any blanks, the marker (in any letter case), words ending in a non-blank and any blanks yields exactly those words stripped, never the empty string. |
| Query.MarkerAloneKept | diagram_chat.py:29-36 | The marker on its own, with or without blanks around it, strips to nothing, so the request comes back unchanged. |
| Query.PhraseSpec | diagram_chat.py:243-261 | An answer listed in the keyword table is replaced by its wording, and any other answer is kept verbatim. |
| Query.KeywordsDistinct | diagram_chat.py:243-253 | No option value appears twice in the keyword table, so each entry is the one used. |
| Query.EnhanceQuery | diagram_chat.py:239-265 | The enhanced query starts with the cleaned request and a space, and ends with " Huawei Cloud". |
| Query.EnhanceQueryMentions | diagram_chat.py:256-264 | The phrase of every answer occurs in the enhanced query. |
| Query.AnswerTextSnoc | diagram_chat.py:257-264 | Phrases follow the order the answers were given: one more answer appends its phrase after a space. |
| Query.PhrasesAt | diagram_chat.py:257-261 | The n-th phrase is the phrase of the n-th answer. |
| Query.EnhanceQueryNoAnswers | diagram_chat.py:264 | With no answers the query keeps both spaces around the empty middle. |
| Clarify.PyIndex | diagram_chat.py:218 | List indexing as Python does it: a negative index counts from the end, and an index outside the list raises IndexError. |
| Clarify.SettingsFirst | diagram_chat.py:221-224 | The first category that lists the parameter supplies its settings. |
| Clarify.SettingsNone | diagram_chat.py:221-227 | There are no settings exactly when no category lists the parameter. |
| Clarify.QuestionOf | diagram_chat.py:229-237 | The question dict carries the five configured fields unchanged, plus the index and the total. It raises KeyError or TypeError exactly when the settings are not a dict holding all five. |
| Clarify.ClarificationQuestionNone | diagram_chat.py:208-227 | There is no question iff the index reaches max_questions, or the parameter is in no category, or its settings are empty. The lookup raises IndexError exactly for an index outside the order. |
| Clarify.ClarificationQuestionFound | diagram_chat.py:214-237 | For an index inside the order whose parameter has non-empty settings, the question is built from the first category's settings. It carries the index and the total. |
| Clarify.QuestionNumbered | diagram_chat.py:229-237 | Any question returned is numbered with the requested index, carries max_questions as its total, and has an index below it. |
| Schema.PromptNamesValidatedKeys | diagram_chat.py:76-77 | The prompt rules name, as a quoted Python string, every item key that the validator requires (the key lists of lines 7-8). |
| Schema.ListReprNamesEveryKey | diagram_chat.py:76-77 | Python's rendering of a key list contains every key, quoted. |
| Validate.ValidatePayload | diagram_chat.py:96-147 | The result says ok iff the payload conforms to the schema, and ok iff the message list is empty. The messages render the problems one by one. The call raises exactly where Python does: a non-dict payload, or a truthy non-string endpoint. |
| Validate.ValidateOkIffConforms | diagram_chat.py:96-147 | No problem is reported iff every required key, every item key, every node_id type and every endpoint name is in order. |
| Validate.ValidateReportsInOrder | diagram_chat.py:98-145 | Problems are reported in this order: top-level keys, the technologies item by item, then the relationships item by item. |
| Validate.MissingTopKeyReported | diagram_chat.py:101-103 | "missing key: k" is reported iff k is a required top-level key that the payload lacks. |
| Validate.TechProblemsSpec | diagram_chat.py:116-121 | A technology object draws one problem per absent item key, one more when node_id is present and not an int, and nothing else. |
| Validate.ValidateAboutTech | diagram_chat.py:112-121 | The problems reported for technology i are exactly those of that item alone, numbered i. |
| Validate.NonObjectTechReportedOnce | diagram_chat.py:113-115 | A technology entry that is not an object draws exactly one problem: that it must be an object. |
| Validate.NameSetSpec | diagram_chat.py:122-124 | A name is declared iff some technology object has a string name that is non-empty once stripped, taken stripped. |
| Validate.ValidateAboutRel | diagram_chat.py:132-145 | The problems reported for relationship j are exactly those of that item alone, numbered j. |
| Validate.NonObjectRelReportedOnce | diagram_chat.py:133-135 | A relationship entry that is not an object draws exactly one problem: that it must be an object. |
| Validate.UnknownEndpointReported | diagram_chat.py:140-145 | For relationship j, an undeclared from (or to) name x is reported iff x is that endpoint's stripped text, non-empty and undeclared. Each side is reported at most once. |
| Validate.ValidateFailsIff | diagram_chat.py:140-141 | The validator raises iff some relationship object has a truthy endpoint that is not a string. |
| Json.StrippedText | diagram_chat.py:140-141 | `(d.get(k) or "").strip()` is a stripped string. It raises AttributeError exactly for a truthy non-string value. |
| Discovery.DeclaredNamesSpec | diagram_chat.py:152 | The declared names are exactly the names of the technology objects. Collecting them fails iff an object lacks "name" (KeyError) or has an unhashable one (TypeError). |
| Discovery.ConsiderSpec | diagram_chat.py:155-157 | Considering an endpoint raises TypeError iff it is truthy and unhashable. Otherwise the endpoint is afterwards falsy, "All Services", declared or found. Anything newly recorded is that endpoint, and what is found stays free of repeats and of known names. |
| Discovery.DiscoverSpec | diagram_chat.py:154-157 | After all relationships, every endpoint is covered: falsy, "All Services", declared, or found. Everything found is an endpoint of some relationship. The scan raises exactly on a non-dict relationship or an unhashable truthy endpoint. |
| Discovery.ExtrasSpec | diagram_chat.py:159-162 | The nodes appended are undeclared endpoints, each added once. After them every hashable endpoint in the set is a known name. |
| Discovery.ExtrasAreFound | diagram_chat.py:159-162 | The appended names are exactly the endpoints found. |
| Discovery.AppendedSpec | diagram_chat.py:163-169 | Appending keeps the original technologies as a prefix. The k-th extra node is the external node for the k-th name, numbered by the list's length plus one at that moment. |
| Repair.RelabelAt | diagram_chat.py:178-179 | A missing label is replaced by the stripped name. It raises AttributeError iff the label is missing and the name is a truthy non-string. A present label is kept, and every other key reads as before. |
| Repair.RepairTechFails | diagram_chat.py:173-188 | Repairing a technology object raises exactly when its label is missing and its name is a truthy non-string. |
| Repair.RepairTechAt | diagram_chat.py:173-188 | After repair, node_id is the position, node_label is the label after the label rule, and name, category and description are trimmed. Every other key is unchanged. |
| Repair.RepairTechsFails | diagram_chat.py:173-175 | The list repair succeeds iff each item's repair at its 1-based position does. |
| Repair.RepairTechIdempotent | diagram_chat.py:173-188 | With the corrected label test, repairing a technology twice gives the same as once. |
| Repair.TrimRelAt | diagram_chat.py:192-200 | A relationship object keeps every key: from, to and type are trimmed when strings, and the rest are unchanged. |
| Repair.TrimRelsIdempotent | diagram_chat.py:191-200 | Trimming the relationships twice gives the same as once. |
| Repair.WithExplanationAt | diagram_chat.py:202-204 | The explanation becomes the default text unless it is a string. Nothing else changes, and the payload is unchanged iff it already had a string explanation. |
| Repair.ExternalNodeFind | diagram_chat.py:163-169 | An external node has the endpoint as name and label, "External" as category, the fixed description, and the given id. |
| Repair.ExternalNodeRepaired | diagram_chat.py:163-188 | Repairing an appended external node never fails and leaves its fields in the external shape. |
| Normalize.NodeIdsArePositions | diagram_chat.py:171-176 | After the pass, every technology object's node_id is its 1-based position. |
| Normalize.OriginalsComeFirst | diagram_chat.py:171-188 | The original technologies come first, each repaired at its own position. |
| Normalize.ExtraNodesCount | diagram_chat.py:159-169 | The technology list grows by exactly the number of appended nodes. |
| Normalize.ExtraNodeAt | diagram_chat.py:163-169 | Each appended node sits after the originals, in the external shape, for its endpoint name. |
| Normalize.ExtraNamesUnknown | diagram_chat.py:154-157 | Each appended name is a hashable, undeclared endpoint of some relationship. |
| Normalize.EndpointsNamed | diagram_chat.py:152-169 | After the pass, every truthy endpoint is hashable, and it is either "All Services" or the name of some technology object. |
| Normalize.RelationshipsKept | diagram_chat.py:190-200 | The relationship list keeps its length and order. Non-objects are untouched, and objects have only from, to and type trimmed. |
| Normalize.ExplanationDefaulted | diagram_chat.py:202-204 | The explanation after the pass is the original when that is a string, and the default text otherwise. |
| Normalize.OtherKeysKept | diagram_chat.py:149-206 | The pass changes no top-level key other than technologies, relationships and explanation. |
| Normalize.ScanAfterPass | diagram_chat.py:152-157 | Scanning a repaired payload succeeds and finds no undeclared endpoint. |
| Normalize.NormalizeIdempotent | diagram_chat.py:149-206 | With the corrected label test, running the pass on its own result returns that result unchanged. |
| Normalize.AsWrittenNotIdempotent | diagram_chat.py:178-188 | For one technology named "OBS" with label "  ", the pass as written leaves the label "" and a second pass sets it to "OBS", so the two results differ. The corrected test sets "OBS" at once. |
| Recheck.OnlyAllServicesReported | diagram_chat.py:140-145 | When the validator runs on a repaired payload and does not raise, the only endpoint name it can report as undeclared is "All Services". |
| Recheck.AllServicesReported | diagram_chat.py:156 | A relationship from "All Services" survives the repair pass unchanged. The validator then reports it as not among the technology names. |
| Recheck.DeclaredOrAllServices | diagram_chat.py:152-169 | After the pass, the non-empty stripped text of each endpoint is "All Services" or a name that the validator collects. |
| Flow.AsksBeforeGenerating | diagram_chat.py:285-295 | With fewer than six answers, the flow never retrieves, generates or decodes: its reply does not depend on those collaborators. It asks the question at index len(answers), or returns nothing when there is none. |
| Flow.AskTextShape | diagram_chat.py:294-295 | The asked text starts with the question and "\nOptions: ", and lists every option in brackets. |
| Flow.AnsweredGenerates | diagram_chat.py:297-345 | With six or more answers the flow never asks a question: it returns a payload or raises. Two sets of collaborators that agree on the documents found for the enhanced query, the model's reply to them, its decoding and the set order give the same reply. |
| Flow.NoDocumentsAsksAgain | diagram_chat.py:301-310 | When retrieval finds nothing, the reply is exactly the fixed payload: empty technologies and relationships, the fixed explanation, clarification_needed true, and the question at index 0. The model and the decoder are never consulted. |
| Flow.InvalidJsonReply | diagram_chat.py:326-333 | When the model's output does not parse, the reply is the fixed invalid-JSON payload with empty lists. |
| Flow.AnnotatedSpec | diagram_chat.py:338-342 | The note goes after the stripped explanation when that is a string, and after "Generated with issues." otherwise. No other key changes. |
| Flow.ProblemsNoted | diagram_chat.py:335-344 | A payload that fails the check keeps the validation_errors note at the end of its explanation through the repair, and every message appears in it. |
| Flow.GeneratedPayload | diagram_chat.py:322-345 | On the generation path, the reply is the repaired payload, annotated first exactly when the check finds a problem, which is iff the payload does not conform. A raising check makes the flow raise. |
| Flow.GeneratedPayloadSettled | diagram_chat.py:335-345 | With the corrected label test, a generated payload is a fixed point of the repair pass. |
| History.Fresh | chat_history.py:13-16 | A new history is empty and keeps the given bound. |
| History.AddExchange | chat_history.py:18-22 | The new pair becomes last. The oldest entry is dropped only when the bound is exceeded, and the others keep their order. |
| History.AddExchangeBounded | chat_history.py:18-22 | Adding an exchange, or clearing, keeps the history within max_history, for any bound. |
| History.KeepsMostRecent | chat_history.py:18-22 | After any sequence of additions, the history is exactly the most recent max_history exchanges, in order. |
| History.Clear | chat_history.py:58-60 | Clearing empties the history and keeps the bound. |
| History.HistoryContextSpec | chat_history.py:24-31 | The context is "" iff the history is empty. Otherwise it contains the block of every entry, numbered from 1. |
| History.EntryShape | chat_history.py:29 | A block is "Q{i}: " and the query, a newline, "A{i}: ", then the answer cut to its first 200 characters (all of it when shorter) and "..." at the very end. |
| History.EntryNumbered | chat_history.py:29-30 | Blocks with different numbers differ. |
| History.HistoryContextGrows | chat_history.py:28-31 | Below the bound, one more exchange appends its block, numbered next, after a newline. |
| History.RelatedNeedsHistory | chat_history.py:33-38 | With an empty history the answer is (False, None), whatever the language model would say. Otherwise the answer depends only on the model's judgement of the last query and the current one. |
| History.ClearForgets | chat_history.py:58-60 | After clearing, no query is related and the context is empty. |

## Left out

- Json.Find: returns the first member stored under a key. `json.loads` keeps the last of duplicate keys. Payloads with a repeated key are not modelled faithfully.
- NaN, Infinity and -Infinity, which `json.loads` accepts, cannot be written as a `JNum(real)`. A payload holding them is outside the model.
- JSON strings holding lone surrogates (`"\ud800"`) decode to Python strings that are not sequences of Dafny `char`s. They are outside the model.
- The order in which the set of extra nodes is walked (line 159) depends on Python's hashing. It is the parameter `arrange`. `Discovery.Arranges` asks only that it lists the same elements, one item each.
- `json.loads`, the language model (`invoke_llm_json` with the text of `build_prompt`), and the retriever (`retriever.invoke` in `retrieve_context`) are not modelled. They are the fields of `Flow.Services`. Only the key rules of the prompt (lines 76-77) are modelled.
- `str()` of floats, lists and dicts inside an f-string (option values and question texts) is the parameter `show`. Strings, ints, booleans and `None` are rendered as Python does.
- `top_k` is passed to `retrieve_context`, which never uses it, and `question_index` (line 283) is never read (the question index is the number of answers, line 290). Neither is a parameter.
- `has_sufficient_info` (lines 267-281) is only called from commented-out code. `DEFAULTS` (lines 10-18) is read only by `build_prompt` (line 75), whose text is part of the abstracted `Services.generate`. Neither is modelled.
- The configuration file read at import time (lines 20-27) is not available. `Clarify.Config` holds the three parts the lookup reads, and each category of `required_parameters` is assumed to be a dict.
- `History.RelatedNeedsHistory`: when the history is not empty, the prompt, the model call and the parsing of its STATUS and STANDALONE_QUERY lines (lines 38-56) form the parameter `judge`. Only the empty-history return is modelled exactly.
- Text.StartsWithIgnoringCase: `str.lower()` is modelled on ASCII letters only. Characters whose lower-case form has a different length (such as U+0130) are not modelled.
- The clarification answers are the dict's items in insertion order. That the keys are distinct is not used or enforced.
- `normalize_payload` mutates its argument in place. The model returns a new value, so dicts aliased inside one payload are not modelled (`json.loads` never produces them).
- Recheck.OnlyAllServicesReported: requires that validating the repaired payload does not raise. A non-string truthy endpoint survives the repair, and the validator then raises AttributeError, which `ValidateFailsIff` states.

## Findings

| source | as written | input that shows it | evidently intended | confidence | as-written member | corrected member |
|---|---|---|---|---|---|---|
| diagram_chat.py:178-188 | The label is tested for emptiness (line 178) before it is stripped (line 188), so a blank label passes the test and ends up as "". | `{"technologies": [{"name": "OBS", "node_label": "  "}]}`: the first pass gives label "", and a second pass gives "OBS". | A blank label is treated as missing, so one pass already gives "OBS" and repeating the pass changes nothing. | medium, not executed | Normalize.AsWrittenNotIdempotent | Normalize.NormalizeIdempotent |
