/** Lines 208-237 of diagram_chat.py, `get_clarification_questions`: the
    clarification question asked at a given position of the configured
    order. The source reads its configuration from a JSON file at import
    time (lines 20-27); here the parts it reads are a parameter. */
module Clarify {
  import opened Wrappers
  import opened Json

  /** What the lookup reads from the configuration: the parameter paths in
      the order they are asked (`collection_strategy.priority_order`), how
      many questions there are at most (`collection_strategy.max_questions`),
      and the categories of `required_parameters`, in file order, each a dict
      from parameter path to that parameter's settings. */
  datatype Config = Config(order: seq<string>, maxQuestions: int, categories: seq<Members>)

  /** The dict of lines 229-237. */
  datatype Question = Question(
    text: Value, options: Value, default: Value, criticality: Value, unknownWarning: Value,
    index: int, total: int)

  /** `xs[i]` for a Python list: a negative index counts from the end, and
      one outside the list raises `IndexError`. */
  function PyIndex<T>(xs: seq<T>, i: int): (r: Result<T, PyError>)
    ensures r.Success? <==> -|xs| <= i < |xs|
    ensures r.Failure? ==> r.error == IndexError
    ensures 0 <= i < |xs| ==> r == Success(xs[i])
    ensures i < 0 && r.Success? ==> r.value == xs[|xs| + i]
  {
    if 0 <= i < |xs| then Success(xs[i])
    else if -|xs| <= i < 0 then Success(xs[|xs| + i])
    else Failure(IndexError)
  }

  /** The settings of `path` in the first category that has it (the loop of
      lines 221-224), `None` when no category has it. */
  function Settings(categories: seq<Members>, path: string): Option<Value>
    decreases |categories|
  {
    if categories == [] then None
    else if Has(categories[0], path) then Find(categories[0], path)
    else Settings(categories[1..], path)
  }

  /** The first category that names the path supplies its settings. */
  lemma {:induction false} SettingsFirst(categories: seq<Members>, path: string, c: nat)
    requires c < |categories| && Has(categories[c], path)
    requires forall d :: 0 <= d < c ==> !Has(categories[d], path)
    ensures Settings(categories, path) == Find(categories[c], path)
    ensures Settings(categories, path).Some?
    decreases c
  {
    if c > 0 {
      SettingsFirst(categories[1..], path, c - 1);
    }
  }

  /** There are settings exactly when some category names the path. */
  lemma {:induction false} SettingsNone(categories: seq<Members>, path: string)
    ensures Settings(categories, path).None? <==> forall c :: 0 <= c < |categories| ==> !Has(categories[c], path)
    decreases |categories|
  {
    if categories != [] {
      SettingsNone(categories[1..], path);
      if !Has(categories[0], path) {
        assert forall c :: 1 <= c < |categories| ==> categories[c] == categories[1..][c - 1];
      }
    }
  }

  /** The question dict built from `settings`, read key by key in the order of
      lines 230-234; the first missing key raises. */
  function QuestionOf(settings: Value, index: int, total: int): (r: Result<Question, PyError>)
    ensures r.Success? <==>
              settings.JObj? && forall k :: k in ["question", "options", "default", "criticality", "unknown_warning"] ==> Has(settings.members, k)
    ensures r.Success? ==>
              && Some(r.value.text) == Find(settings.members, "question")
              && Some(r.value.options) == Find(settings.members, "options")
              && Some(r.value.default) == Find(settings.members, "default")
              && Some(r.value.criticality) == Find(settings.members, "criticality")
              && Some(r.value.unknownWarning) == Find(settings.members, "unknown_warning")
              && r.value.index == index && r.value.total == total
    ensures r.Failure? ==> r.error == TypeError || r.error.KeyError?
  {
    var text :- Subscript(settings, "question");
    var options :- Subscript(settings, "options");
    var default :- Subscript(settings, "default");
    var criticality :- Subscript(settings, "criticality");
    var warning :- Subscript(settings, "unknown_warning");
    Success(Question(text, options, default, criticality, warning, index, total))
  }

  /** `get_clarification_questions(query, index)`: `None` once the index
      reaches `max_questions` or when the parameter at that index has no (or
      empty) settings, the question otherwise. The query is not read. */
  function ClarificationQuestion(cfg: Config, index: int): Result<Option<Question>, PyError> {
    if index >= cfg.maxQuestions then Success(None)
    else
      var path :- PyIndex(cfg.order, index);
      match Settings(cfg.categories, path)
      case None => Success(None)
      case Some(settings) =>
        if !Truthy(settings) then Success(None)
        else
          var q :- QuestionOf(settings, index, cfg.maxQuestions);
          Success(Some(q))
  }

  /** There is no question exactly when the index is past the last question,
      or the parameter at the index is in no category, or its settings are
      empty; the lookup raises only on an index outside the order or on
      settings that are not a dict with the five fields. */
  lemma ClarificationQuestionNone(cfg: Config, index: int)
    ensures ClarificationQuestion(cfg, index) == Success(None) <==>
              || index >= cfg.maxQuestions
              || (&& -|cfg.order| <= index < |cfg.order|
                  && var path := PyIndex(cfg.order, index).value;
                     (forall c :: 0 <= c < |cfg.categories| ==> !Has(cfg.categories[c], path))
                     || (Settings(cfg.categories, path).Some? && !Truthy(Settings(cfg.categories, path).value)))
    ensures ClarificationQuestion(cfg, index).Failure? ==>
              index < cfg.maxQuestions &&
              (ClarificationQuestion(cfg, index).error == IndexError <==> !(-|cfg.order| <= index < |cfg.order|))
  {
    if index < cfg.maxQuestions && -|cfg.order| <= index < |cfg.order| {
      SettingsNone(cfg.categories, PyIndex(cfg.order, index).value);
    }
  }

  /** Before the last question, the question at a valid index is built from
      the settings in the first category that names its parameter, and says
      which question it is and how many there are. */
  lemma ClarificationQuestionFound(cfg: Config, index: nat, c: nat)
    requires index < cfg.maxQuestions && index < |cfg.order|
    requires c < |cfg.categories| && Has(cfg.categories[c], cfg.order[index])
    requires forall d :: 0 <= d < c ==> !Has(cfg.categories[d], cfg.order[index])
    requires Truthy(Find(cfg.categories[c], cfg.order[index]).value)
    ensures ClarificationQuestion(cfg, index) ==
              var q :- QuestionOf(Find(cfg.categories[c], cfg.order[index]).value, index, cfg.maxQuestions);
              Success(Some(q))
    ensures ClarificationQuestion(cfg, index).Success? ==>
              var q := ClarificationQuestion(cfg, index).value;
              q.Some? && q.value.index == index && q.value.total == cfg.maxQuestions
  {
    SettingsFirst(cfg.categories, cfg.order[index], c);
  }

  /** A question found says which question it is and how many there are. */
  lemma QuestionNumbered(cfg: Config, index: int)
    ensures ClarificationQuestion(cfg, index).Success? && ClarificationQuestion(cfg, index).value.Some? ==>
              && ClarificationQuestion(cfg, index).value.value.index == index
              && ClarificationQuestion(cfg, index).value.value.total == cfg.maxQuestions
              && index < cfg.maxQuestions
  {
  }
}
