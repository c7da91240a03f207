/** Lines 283-345 of diagram_chat.py, `generate_diagram_flow`: ask the
    clarification questions one at a time, and once six answers are in,
    retrieve documents, have the language model write the diagram payload,
    and check and repair it. The retriever, the model (with the prompt it is
    given), `json.loads`, the order in which a Python set is walked, and
    `str()` of values other than strings, integers, booleans and `None` are
    parameters. */
module Flow {
  import opened Wrappers
  import opened Json
  import Text
  import Query
  import Clarify
  import Validate
  import Normalize
  import Repair
  import Discovery

  /** The collaborators the flow calls but that are not modelled. */
  datatype Services = Services(
    /** `retriever.invoke(query)`: the page contents of the documents found. */
    retrieve: string -> seq<string>,
    /** `invoke_llm_json(llm, build_prompt(query, documentation))`. */
    generate: (string, string) -> string,
    /** `json.loads`: `None` where it raises `ValueError`. */
    decode: string -> Option<Value>,
    /** The order in which the set of extra nodes is walked. */
    arrange: seq<Value> -> seq<Value>,
    /** `str(v)` for floats, lists and dicts. */
    show: Value -> string)

  /** What the flow returns: a question for the user, nothing, or a payload dict. */
  datatype Reply = Ask(text: string) | Nothing | Payload(members: Members)

  /** How many answers the flow waits for before it generates (line 288). */
  const AnswersNeeded: nat := 6

  // ---------------------------------------------------------------------------
  // Rendering

  /** `str(v)`, as an f-string renders `v`. */
  function PyStr(v: Value, show: Value -> string): string {
    match v
    case JStr(s) => s
    case JNull => "None"
    case JBool(b) => if b then "True" else "False"
    case JInt(i) => if i < 0 then "-" + Text.NatToString(-i) else Text.NatToString(i)
    case _ => show(v)
  }

  /** `[opt]` for each option, in order. */
  function Bracketed(options: seq<Value>, show: Value -> string): (r: seq<string>)
    ensures |r| == |options|
    decreases |options|
  {
    if options == [] then [] else ["[" + PyStr(options[0], show) + "]"] + Bracketed(options[1..], show)
  }

  /** Lines 294-295: the question, then the options in brackets on one line.
      Options that cannot be iterated raise. */
  function AskText(q: Clarify.Question, show: Value -> string): Result<string, PyError> {
    var options :- Iterate(q.options);
    Success(PyStr(q.text, show) + "\nOptions: " + Text.Join(" ", Bracketed(options, show)))
  }

  /** Lines 40-41: the documents numbered from 1 and separated by rules. */
  function Documentation(docs: seq<string>): string {
    Text.Join("\n\n---\n\n", Numbered(docs, 1))
  }

  function Numbered(docs: seq<string>, first: nat): (r: seq<string>)
    ensures |r| == |docs|
    decreases |docs|
  {
    if docs == [] then [] else ["[" + Text.NatToString(first) + "] " + docs[0]] + Numbered(docs[1..], first + 1)
  }

  // ---------------------------------------------------------------------------
  // The fixed payloads

  /** The question dict as the payload carries it, or `None`. */
  function QuestionValue(q: Option<Clarify.Question>): Value {
    match q
    case None => JNull
    case Some(x) => JObj([
      ("question", x.text), ("options", x.options), ("default", x.default),
      ("criticality", x.criticality), ("unknown_warning", x.unknownWarning),
      ("current_index", JInt(x.index)), ("total_questions", JInt(x.total))])
  }

  const NoDocumentsText: string := "No relevant documents found. Provide more details (e.g., traffic, region)."
  const InvalidJsonText: string := "Model returned invalid JSON. Please retry."
  const IssuesText: string := "Generated with issues."
  const NotePrefix: string := " | validation_errors="

  /** Lines 304-310: nothing generated, and the first question offered again. */
  function NoDocuments(q: Option<Clarify.Question>): Members {
    [("technologies", JArr([])), ("relationships", JArr([])), ("explanation", JStr(NoDocumentsText)),
     ("clarification_needed", JBool(true)), ("questions", QuestionValue(q))]
  }

  /** Lines 329-333. */
  const InvalidJson: Members :=
    [("technologies", JArr([])), ("relationships", JArr([])), ("explanation", JStr(InvalidJsonText))]

  /** The note of line 338. */
  function Note(errs: seq<string>): string {
    NotePrefix + Text.Join("; ", errs)
  }

  /** Lines 339-342: the note goes after the stripped explanation when that is
      a string, and after a fixed sentence otherwise. */
  function Annotated(p: Members, errs: seq<string>): Members {
    match Find(p, "explanation")
    case Some(JStr(e)) => Put(p, "explanation", JStr(Text.Trim(e) + Note(errs)))
    case _ => Put(p, "explanation", JStr(IssuesText + Note(errs)))
  }

  // ---------------------------------------------------------------------------
  // The flow

  /** Lines 298-345: retrieval, generation, checking and repair for the
      enhanced query. */
  function Generate(rule: Repair.LabelRule, cfg: Clarify.Config, env: Services, enhanced: string)
    : Result<Reply, PyError>
  {
    var docs := env.retrieve(enhanced);
    if docs == [] then
      var q :- Clarify.ClarificationQuestion(cfg, 0);
      Success(Payload(NoDocuments(q)))
    else
      match env.decode(env.generate(enhanced, Documentation(docs)))
      case None => Success(Payload(InvalidJson))
      case Some(v) =>
        var checked :- Validate.ValidatePayload(v);
        var noted := if checked.0 then v.members else Annotated(v.members, checked.1);
        var fixed :- Normalize.NormalizeWith(rule, noted, env.arrange);
        Success(Payload(fixed))
  }

  /** `generate_diagram_flow(query, retriever, llm, top_k, answers,
      question_index)`, the answers given as the dict's items in insertion
      order (an absent dict is the empty one); `top_k` and `question_index`
      do not affect the result. `rule` says how an empty label is recognised during the
      repair pass (see `Repair.LabelRule`). */
  function DiagramFlow(rule: Repair.LabelRule, cfg: Clarify.Config, env: Services,
                       query: string, answers: seq<(string, string)>): Result<Reply, PyError>
  {
    var clean := Query.StripDiagramIntent(query);
    if |answers| < AnswersNeeded then
      var q :- Clarify.ClarificationQuestion(cfg, |answers|);
      match q
      case None => Success(Nothing)
      case Some(question) =>
        var text :- AskText(question, env.show);
        Success(Ask(text))
    else
      Generate(rule, cfg, env, Query.EnhanceQuery(clean, answers))
  }

  // ---------------------------------------------------------------------------
  // Properties

  /** Until six answers are in, the flow asks the question whose index is the
      number of answers, or returns nothing when there is none; it never
      retrieves, generates or decodes, so those collaborators cannot change
      the reply. */
  lemma AsksBeforeGenerating(rule: Repair.LabelRule, cfg: Clarify.Config, env: Services, other: Services,
                             query: string, answers: seq<(string, string)>)
    requires |answers| < AnswersNeeded && other.show == env.show
    ensures DiagramFlow(rule, cfg, env, query, answers) == DiagramFlow(rule, cfg, other, query, answers)
    ensures DiagramFlow(rule, cfg, env, query, answers).Success? ==>
              !DiagramFlow(rule, cfg, env, query, answers).value.Payload?
    ensures Clarify.ClarificationQuestion(cfg, |answers|) == Success(None) ==>
              DiagramFlow(rule, cfg, env, query, answers) == Success(Nothing)
    ensures var c := Clarify.ClarificationQuestion(cfg, |answers|);
            c.Success? && c.value.Some? ==>
              && c.value.value.index == |answers|
              && (AskText(c.value.value, env.show).Success? ==>
                    DiagramFlow(rule, cfg, env, query, answers) == Success(Ask(AskText(c.value.value, env.show).value)))
  {
    Clarify.QuestionNumbered(cfg, |answers|);
  }

  /** The question text is the question, then a line listing each option in
      brackets. */
  lemma AskTextShape(q: Clarify.Question, show: Value -> string, n: nat)
    requires AskText(q, show).Success?
    ensures var t := AskText(q, show).value;
            var head := PyStr(q.text, show) + "\nOptions: ";
            && |head| <= |t| && t[..|head|] == head
            && (n < |Iterate(q.options).value| ==> Text.Contains(t, "[" + PyStr(Iterate(q.options).value[n], show) + "]"))
  {
    var options := Iterate(q.options).value;
    var head := PyStr(q.text, show) + "\nOptions: ";
    var line := Text.Join(" ", Bracketed(options, show));
    var t := AskText(q, show).value;
    assert t == head + line;
    assert t[..|head|] == head;
    if n < |options| {
      BracketedAt(options, show, n);
      Text.JoinContainsParts(" ", Bracketed(options, show), n);
      Text.ContainsInside(head, line, "", "[" + PyStr(options[n], show) + "]");
      assert head + line + "" == t;
    }
  }

  lemma {:induction false} BracketedAt(options: seq<Value>, show: Value -> string, n: nat)
    requires n < |options|
    ensures Bracketed(options, show)[n] == "[" + PyStr(options[n], show) + "]"
    decreases |options|
  {
    if n > 0 {
      BracketedAt(options[1..], show, n - 1);
      assert Bracketed(options, show)[n] == Bracketed(options[1..], show)[n - 1];
    }
  }

  /** From six answers on, the flow generates for the stripped request
      enhanced with the answers (the helper the generation lemmas start from). */
  lemma GeneratesWithAnswers(rule: Repair.LabelRule, cfg: Clarify.Config, env: Services,
                             query: string, answers: seq<(string, string)>)
    requires |answers| >= AnswersNeeded
    ensures DiagramFlow(rule, cfg, env, query, answers) ==
              Generate(rule, cfg, env, Query.EnhanceQuery(Query.StripDiagramIntent(query), answers))
  {
  }

  /** Once six answers are in, the flow never asks a question: it returns a
      payload or raises. What it returns depends on the collaborators only
      through the documents found for the enhanced query, the model's reply
      to them, how that reply decodes, and the set order of the repair. */
  lemma AnsweredGenerates(rule: Repair.LabelRule, cfg: Clarify.Config, env: Services, other: Services,
                          query: string, answers: seq<(string, string)>)
    requires |answers| >= AnswersNeeded
    requires var enhanced := Query.EnhanceQuery(Query.StripDiagramIntent(query), answers);
             var docs := env.retrieve(enhanced);
             var raw := env.generate(enhanced, Documentation(docs));
             && other.retrieve(enhanced) == docs
             && other.generate(enhanced, Documentation(docs)) == raw
             && other.decode(raw) == env.decode(raw)
             && other.arrange == env.arrange
    ensures DiagramFlow(rule, cfg, env, query, answers) == DiagramFlow(rule, cfg, other, query, answers)
    ensures DiagramFlow(rule, cfg, env, query, answers).Success? ==>
              DiagramFlow(rule, cfg, env, query, answers).value.Payload?
  {
    var enhanced := Query.EnhanceQuery(Query.StripDiagramIntent(query), answers);
    GeneratesWithAnswers(rule, cfg, env, query, answers);
    GeneratesWithAnswers(rule, cfg, other, query, answers);
    SameGeneration(rule, cfg, env, other, enhanced);
  }

  /** Generation for one enhanced query reads the collaborators only there,
      and always replies with a payload. */
  lemma SameGeneration(rule: Repair.LabelRule, cfg: Clarify.Config, env: Services, other: Services, enhanced: string)
    requires var docs := env.retrieve(enhanced);
             var raw := env.generate(enhanced, Documentation(docs));
             && other.retrieve(enhanced) == docs
             && other.generate(enhanced, Documentation(docs)) == raw
             && other.decode(raw) == env.decode(raw)
             && other.arrange == env.arrange
    ensures Generate(rule, cfg, env, enhanced) == Generate(rule, cfg, other, enhanced)
    ensures Generate(rule, cfg, env, enhanced).Success? ==> Generate(rule, cfg, env, enhanced).value.Payload?
  {
  }

  /** The empty payload names no technology, asks for clarification, and
      carries the question offered. */
  lemma NoDocumentsFields(q: Option<Clarify.Question>)
    ensures Find(NoDocuments(q), "technologies") == Some(JArr([]))
    ensures Find(NoDocuments(q), "relationships") == Some(JArr([]))
    ensures Find(NoDocuments(q), "explanation") == Some(JStr(NoDocumentsText))
    ensures Find(NoDocuments(q), "clarification_needed") == Some(JBool(true))
    ensures Find(NoDocuments(q), "questions") == Some(QuestionValue(q))
  {
    var ms := NoDocuments(q);
    FindAt(ms, "technologies", 0);
    FindAt(ms, "relationships", 1);
    FindAt(ms, "explanation", 2);
    FindAt(ms, "clarification_needed", 3);
    FindAt(ms, "questions", 4);
  }

  /** With six answers and no documents found, the payload is empty, asks for
      clarification, and offers the first question again; the model and the
      decoder are not consulted. */
  lemma NoDocumentsAsksAgain(rule: Repair.LabelRule, cfg: Clarify.Config, env: Services, other: Services,
                             query: string, answers: seq<(string, string)>)
    requires |answers| >= AnswersNeeded
    requires env.retrieve(Query.EnhanceQuery(Query.StripDiagramIntent(query), answers)) == []
    requires other.retrieve == env.retrieve
    ensures DiagramFlow(rule, cfg, env, query, answers) == DiagramFlow(rule, cfg, other, query, answers)
    ensures var c := Clarify.ClarificationQuestion(cfg, 0);
            c.Success? ==> DiagramFlow(rule, cfg, env, query, answers) == Success(Payload(NoDocuments(c.value)))
    ensures var c := Clarify.ClarificationQuestion(cfg, 0);
            c.Success? ==>
              && Find(NoDocuments(c.value), "technologies") == Some(JArr([]))
              && Find(NoDocuments(c.value), "relationships") == Some(JArr([]))
              && Find(NoDocuments(c.value), "clarification_needed") == Some(JBool(true))
              && Find(NoDocuments(c.value), "explanation") == Some(JStr(NoDocumentsText))
              && Find(NoDocuments(c.value), "questions") == Some(QuestionValue(c.value))
    ensures var c := Clarify.ClarificationQuestion(cfg, 0);
            c.Success? && c.value.Some? ==> c.value.value.index == 0
  {
    var enhanced := Query.EnhanceQuery(Query.StripDiagramIntent(query), answers);
    GeneratesWithAnswers(rule, cfg, env, query, answers);
    GeneratesWithAnswers(rule, cfg, other, query, answers);
    NothingFound(rule, cfg, env, other, enhanced);
    var c := Clarify.ClarificationQuestion(cfg, 0);
    if c.Success? {
      NoDocumentsFields(c.value);
    }
    Clarify.QuestionNumbered(cfg, 0);
  }

  /** Generation for a query that finds no documents. */
  lemma NothingFound(rule: Repair.LabelRule, cfg: Clarify.Config, env: Services, other: Services, enhanced: string)
    requires env.retrieve(enhanced) == [] && other.retrieve(enhanced) == []
    ensures Generate(rule, cfg, env, enhanced) == Generate(rule, cfg, other, enhanced)
    ensures var c := Clarify.ClarificationQuestion(cfg, 0);
            c.Success? ==> Generate(rule, cfg, env, enhanced) == Success(Payload(NoDocuments(c.value)))
  {
  }

  /** A reply the decoder rejects gives the fixed invalid-JSON payload, whatever
      the repair rule or set order. */
  lemma InvalidJsonReply(rule: Repair.LabelRule, cfg: Clarify.Config, env: Services, query: string,
                         answers: seq<(string, string)>)
    requires |answers| >= AnswersNeeded
    requires var enhanced := Query.EnhanceQuery(Query.StripDiagramIntent(query), answers);
             var docs := env.retrieve(enhanced);
             docs != [] && env.decode(env.generate(enhanced, Documentation(docs))) == None
    ensures DiagramFlow(rule, cfg, env, query, answers) == Success(Payload(InvalidJson))
    ensures Find(InvalidJson, "explanation") == Some(JStr(InvalidJsonText))
    ensures Find(InvalidJson, "technologies") == Some(JArr([])) && Find(InvalidJson, "relationships") == Some(JArr([]))
  {
    var enhanced := Query.EnhanceQuery(Query.StripDiagramIntent(query), answers);
    GeneratesWithAnswers(rule, cfg, env, query, answers);
    InvalidJsonGenerated(rule, cfg, env, enhanced);
    InvalidJsonFields();
  }

  lemma InvalidJsonGenerated(rule: Repair.LabelRule, cfg: Clarify.Config, env: Services, enhanced: string)
    requires var docs := env.retrieve(enhanced);
             docs != [] && env.decode(env.generate(enhanced, Documentation(docs))) == None
    ensures Generate(rule, cfg, env, enhanced) == Success(Payload(InvalidJson))
  {
  }

  lemma InvalidJsonFields()
    ensures Find(InvalidJson, "explanation") == Some(JStr(InvalidJsonText))
    ensures Find(InvalidJson, "technologies") == Some(JArr([])) && Find(InvalidJson, "relationships") == Some(JArr([]))
  {
    FindAt(InvalidJson, "technologies", 0);
    FindAt(InvalidJson, "relationships", 1);
    FindAt(InvalidJson, "explanation", 2);
  }

  /** The note records the problems and comes after the stripped explanation,
      or after the fixed sentence when there is no string explanation; no
      other key changes. */
  lemma AnnotatedSpec(p: Members, errs: seq<string>, k: string)
    ensures var e := Find(p, "explanation");
            Find(Annotated(p, errs), "explanation") ==
              if e.Some? && e.value.JStr? then Some(JStr(Text.Trim(e.value.s) + Note(errs)))
              else Some(JStr(IssuesText + Note(errs)))
    ensures k != "explanation" ==> Find(Annotated(p, errs), k) == Find(p, k)
  {
  }

  /** The payload a flow returns after generation, when the decoded reply
      fails the check: the explanation ends with the note listing every
      problem, because the note is added before the repair pass, which keeps
      a string explanation. */
  lemma ProblemsNoted(rule: Repair.LabelRule, env: Services, p: Members, errs: seq<string>)
    requires Normalize.NormalizeWith(rule, Annotated(p, errs), env.arrange).Success?
    ensures var e := Find(Normalize.NormalizeWith(rule, Annotated(p, errs), env.arrange).value, "explanation");
            && e.Some? && e.value.JStr?
            && |Note(errs)| <= |e.value.s|
            && e.value.s[|e.value.s| - |Note(errs)|..] == Note(errs)
            && forall n :: 0 <= n < |errs| ==> Text.Contains(e.value.s, errs[n])
  {
    var a := Annotated(p, errs);
    AnnotatedSpec(p, errs, "explanation");
    Normalize.ExplanationDefaulted(rule, a, env.arrange);
    var e := Find(p, "explanation");
    var lead := if e.Some? && e.value.JStr? then Text.Trim(e.value.s) else IssuesText;
    assert Find(Normalize.NormalizeWith(rule, a, env.arrange).value, "explanation") == Some(JStr(lead + Note(errs)));
    NoteEnds(lead, errs);
  }

  /** Text followed by the note ends with the note and mentions every problem. */
  lemma NoteEnds(lead: string, errs: seq<string>)
    ensures var s := lead + Note(errs);
            && |Note(errs)| <= |s|
            && s[|s| - |Note(errs)|..] == Note(errs)
            && forall n :: 0 <= n < |errs| ==> Text.Contains(s, errs[n])
  {
    var s := lead + Note(errs);
    assert s[|s| - |Note(errs)|..] == Note(errs);
    forall n | 0 <= n < |errs| ensures Text.Contains(s, errs[n]) {
      Text.JoinContainsParts("; ", errs, n);
      Text.ContainsInside(lead + NotePrefix, Text.Join("; ", errs), "", errs[n]);
      assert lead + NotePrefix + Text.Join("; ", errs) + "" == s;
    }
  }

  /** On the generation path the flow returns the repaired payload, after
      noting problems exactly when the check fails. */
  lemma GeneratedPayload(rule: Repair.LabelRule, cfg: Clarify.Config, env: Services, query: string,
                         answers: seq<(string, string)>, v: Value)
    requires |answers| >= AnswersNeeded
    requires var enhanced := Query.EnhanceQuery(Query.StripDiagramIntent(query), answers);
             var docs := env.retrieve(enhanced);
             docs != [] && env.decode(env.generate(enhanced, Documentation(docs))) == Some(v)
    ensures Validate.ValidatePayload(v).Failure? ==> DiagramFlow(rule, cfg, env, query, answers).Failure?
    ensures Validate.ValidatePayload(v).Success? ==>
              var checked := Validate.ValidatePayload(v).value;
              && v.JObj?
              && (DiagramFlow(rule, cfg, env, query, answers) ==
                    var noted := if checked.0 then v.members else Annotated(v.members, checked.1);
                    var fixed :- Normalize.NormalizeWith(rule, noted, env.arrange);
                    Success(Payload(fixed)))
              && (checked.0 <==> Validate.Conforms(v.members))
  {
    var enhanced := Query.EnhanceQuery(Query.StripDiagramIntent(query), answers);
    GeneratesWithAnswers(rule, cfg, env, query, answers);
    DecodedGenerated(rule, cfg, env, enhanced, v);
  }

  lemma DecodedGenerated(rule: Repair.LabelRule, cfg: Clarify.Config, env: Services, enhanced: string, v: Value)
    requires var docs := env.retrieve(enhanced);
             docs != [] && env.decode(env.generate(enhanced, Documentation(docs))) == Some(v)
    ensures Validate.ValidatePayload(v).Failure? ==> Generate(rule, cfg, env, enhanced).Failure?
    ensures Validate.ValidatePayload(v).Success? ==>
              var checked := Validate.ValidatePayload(v).value;
              && v.JObj?
              && (Generate(rule, cfg, env, enhanced) ==
                    var noted := if checked.0 then v.members else Annotated(v.members, checked.1);
                    var fixed :- Normalize.NormalizeWith(rule, noted, env.arrange);
                    Success(Payload(fixed)))
              && (checked.0 <==> Validate.Conforms(v.members))
  {
  }

  /** With the corrected label test, a generated payload is already
      repaired: running the repair pass on it again changes nothing. */
  lemma GeneratedPayloadSettled(cfg: Clarify.Config, env: Services, query: string,
                                answers: seq<(string, string)>, v: Value)
    requires Discovery.Arranges(env.arrange)
    requires |answers| >= AnswersNeeded
    requires var enhanced := Query.EnhanceQuery(Query.StripDiagramIntent(query), answers);
             var docs := env.retrieve(enhanced);
             docs != [] && env.decode(env.generate(enhanced, Documentation(docs))) == Some(v)
    ensures var r := DiagramFlow(Repair.Corrected, cfg, env, query, answers);
            r.Success? ==>
              && r.value.Payload?
              && Normalize.NormalizeWith(Repair.Corrected, r.value.members, env.arrange) == Success(r.value.members)
  {
    var noted := RepairedFrom(cfg, env, query, answers, v);
    SettledReply(DiagramFlow(Repair.Corrected, cfg, env, query, answers), noted, env.arrange);
  }

  /** A reply that is the corrected repair of some payload is settled. */
  lemma SettledReply(r: Result<Reply, PyError>, noted: Members, arrange: seq<Value> -> seq<Value>)
    requires Discovery.Arranges(arrange)
    requires r.Success? ==>
               && r.value.Payload?
               && Normalize.NormalizeWith(Repair.Corrected, noted, arrange) == Success(r.value.members)
    ensures r.Success? ==>
              && r.value.Payload?
              && Normalize.NormalizeWith(Repair.Corrected, r.value.members, arrange) == Success(r.value.members)
  {
    if r.Success? {
      SettledRepair(noted, arrange, r.value.members);
    }
  }

  lemma SettledRepair(noted: Members, arrange: seq<Value> -> seq<Value>, fixed: Members)
    requires Discovery.Arranges(arrange)
    requires Normalize.NormalizeWith(Repair.Corrected, noted, arrange) == Success(fixed)
    ensures Normalize.NormalizeWith(Repair.Corrected, fixed, arrange) == Success(fixed)
  {
    Normalize.NormalizeIdempotent(noted, arrange);
  }

  /** A generated reply is the repair of some payload. */
  lemma RepairedFrom(cfg: Clarify.Config, env: Services, query: string,
                     answers: seq<(string, string)>, v: Value) returns (noted: Members)
    requires |answers| >= AnswersNeeded
    requires var enhanced := Query.EnhanceQuery(Query.StripDiagramIntent(query), answers);
             var docs := env.retrieve(enhanced);
             docs != [] && env.decode(env.generate(enhanced, Documentation(docs))) == Some(v)
    ensures var r := DiagramFlow(Repair.Corrected, cfg, env, query, answers);
            r.Success? ==>
              && r.value.Payload?
              && Normalize.NormalizeWith(Repair.Corrected, noted, env.arrange) == Success(r.value.members)
  {
    GeneratedPayload(Repair.Corrected, cfg, env, query, answers, v);
    noted := NotedReply(DiagramFlow(Repair.Corrected, cfg, env, query, answers), v, env.arrange);
  }

  /** A reply built from a decoded payload as the flow builds it is the
      corrected repair of the payload, noted or not. */
  lemma NotedReply(r: Result<Reply, PyError>, v: Value, arrange: seq<Value> -> seq<Value>) returns (noted: Members)
    requires Validate.ValidatePayload(v).Failure? ==> r.Failure?
    requires Validate.ValidatePayload(v).Success? ==>
               var checked := Validate.ValidatePayload(v).value;
               && v.JObj?
               && r == (var noted := if checked.0 then v.members else Annotated(v.members, checked.1);
                        var fixed :- Normalize.NormalizeWith(Repair.Corrected, noted, arrange);
                        Success(Payload(fixed)))
    ensures r.Success? ==>
              && r.value.Payload?
              && Normalize.NormalizeWith(Repair.Corrected, noted, arrange) == Success(r.value.members)
  {
    noted := [];
    if Validate.ValidatePayload(v).Success? {
      var checked := Validate.ValidatePayload(v).value;
      noted := if checked.0 then v.members else Annotated(v.members, checked.1);
    }
  }
}
