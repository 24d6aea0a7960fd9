/** `loadQuiz` of the quiz page (src/app/quiz/page.tsx): the quiz a guest
    generated is read back from session storage, its shape checked and its
    questions given defaults. The stored text, `JSON.parse` and the current
    time are parameters. */
module QuizPage {
  import opened Wrappers
  import opened JsValues

  const NoQuizMessage := "No quiz found. Please generate a new quiz."
  const InvalidQuizMessage := "Invalid quiz format. Please generate a new quiz."
  const LoadErrorMessage := "Error loading quiz data."

  /** The five fields a loaded question carries. */
  const LoadedKeys: set<string> := {"type", "question", "options", "correctAnswer", "explanation"}

  /** The quiz handed to the quiz container. */
  datatype LoadedQuiz = LoadedQuiz(title: Value, questions: seq<map<string, Value>>, createdAt: Value)

  /** `q.key` on a question that is not `null` or `undefined`. */
  function Prop(q: Value, key: string): Value {
    Get(q, key).GetOr(Undefined)
  }

  /** The shape of every loaded question. */
  predicate LoadedQuestion(m: map<string, Value>) {
    && m.Keys == LoadedKeys
    && Truthy(m["type"])
    && Truthy(m["question"])
    && m["options"].Arr?
    && IsNumber(m["correctAnswer"])
    && Truthy(m["explanation"])
  }

  /** The defaults of the `map` callback; `None` is the TypeError of a
      `null` or `undefined` element. */
  function LoadQuestion(q: Value): (r: Option<map<string, Value>>)
    ensures r.None? <==> q.Null? || q.Undefined?
    ensures r.Some? ==> LoadedQuestion(r.value)
    ensures r.Some? && Truthy(Prop(q, "question")) ==> r.value["question"] == Prop(q, "question")
    ensures r.Some? && !Truthy(Prop(q, "question")) ==> r.value["question"] == Str("Unknown question")
    ensures r.Some? && IsNumber(Prop(q, "correctAnswer")) ==> r.value["correctAnswer"] == Prop(q, "correctAnswer")
    ensures r.Some? && !IsNumber(Prop(q, "correctAnswer")) ==> r.value["correctAnswer"] == Num(0)
    ensures r.Some? && Truthy(Prop(q, "type")) ==> r.value["type"] == Prop(q, "type")
    ensures r.Some? && !Truthy(Prop(q, "type")) ==> r.value["type"] == Str("multipleChoice")
    ensures r.Some? && Prop(q, "options").Arr? ==> r.value["options"] == Prop(q, "options")
    ensures r.Some? && !Prop(q, "options").Arr? ==> r.value["options"] == Arr([Str("No options available")])
    ensures r.Some? && Truthy(Prop(q, "explanation")) ==> r.value["explanation"] == Prop(q, "explanation")
    ensures r.Some? && !Truthy(Prop(q, "explanation")) ==> r.value["explanation"] == Str("No explanation provided")
  {
    if q.Null? || q.Undefined? then None
    else
      Some(map[
        "type" := Or(Prop(q, "type"), Str("multipleChoice")),
        "question" := Or(Prop(q, "question"), Str("Unknown question")),
        "options" := if Prop(q, "options").Arr? then Prop(q, "options") else Arr([Str("No options available")]),
        "correctAnswer" := if IsNumber(Prop(q, "correctAnswer")) then Prop(q, "correctAnswer") else Num(0),
        "explanation" := Or(Prop(q, "explanation"), Str("No explanation provided"))])
  }

  /** A loaded question loads to itself. */
  lemma LoadQuestionIdempotent(q: Value)
    requires !q.Null? && !q.Undefined?
    ensures LoadQuestion(Obj(LoadQuestion(q).value)) == LoadQuestion(q)
  {
    var m := LoadQuestion(q).value;
    var m2 := LoadQuestion(Obj(m)).value;
    assert m2.Keys == m.Keys;
    assert forall k :: k in m ==> m2[k] == m[k];
  }

  /** The shape check: a truthy title and a `questions` array. */
  predicate ValidShape(parsed: Value) {
    parsed.Obj? && Truthy(Field(parsed.fields, "title")) && Field(parsed.fields, "questions").Arr?
  }

  /** `loadQuiz` with `stored` the session-storage entry (`None` when absent)
      and `nowIso` the current time as an ISO string. */
  function LoadQuiz(stored: Option<string>, parse: string -> Option<Value>, nowIso: string): (r: Result<LoadedQuiz>)
    ensures stored.None? || stored.value == [] ==> r == Err(NoQuizMessage)
    ensures r.Ok? ==> stored.Some? && parse(stored.value).Some? && ValidShape(parse(stored.value).value)
    ensures r.Ok? ==> forall i :: 0 <= i < |r.value.questions| ==> LoadedQuestion(r.value.questions[i])
    ensures r.Ok? ==> Truthy(r.value.title)
    ensures (stored.Some? && stored.value != [] && parse(stored.value).Some?
             && !parse(stored.value).value.Null? && !parse(stored.value).value.Undefined? && !ValidShape(parse(stored.value).value))
            ==> r == Err(InvalidQuizMessage)
    ensures stored.Some? && stored.value != [] && parse(stored.value) == Some(Null) ==> r == Err(LoadErrorMessage)
    ensures stored.Some? && stored.value != [] && parse(stored.value).None? ==> r == Err(LoadErrorMessage)
    ensures stored.Some? && stored.value != [] && parse(stored.value).Some? && ValidShape(parse(stored.value).value)
            && (exists i :: 0 <= i < |Field(parse(stored.value).value.fields, "questions").items|
                  && (Field(parse(stored.value).value.fields, "questions").items[i].Null?
                      || Field(parse(stored.value).value.fields, "questions").items[i].Undefined?))
            ==> r == Err(LoadErrorMessage)
  {
    if stored.None? || stored.value == [] then Err(NoQuizMessage)
    else
      match parse(stored.value)
      case None => Err(LoadErrorMessage)
      case Some(parsed) =>
        if parsed.Null? || parsed.Undefined? then Err(LoadErrorMessage)
        else if !ValidShape(parsed) then Err(InvalidQuizMessage)
        else
          var raw := Field(parsed.fields, "questions").items;
          if exists i :: 0 <= i < |raw| && (raw[i].Null? || raw[i].Undefined?) then Err(LoadErrorMessage)
          else
            Ok(LoadedQuiz(
              Field(parsed.fields, "title"),
              seq(|raw|, i requires 0 <= i < |raw| => LoadQuestion(raw[i]).value),
              Or(Field(parsed.fields, "createdAt"), Str(nowIso))))
  }

  /** A well-shaped stored quiz loads with its title, one question per
      stored question in the same order, and its own creation time or,
      failing that, the current time. */
  lemma LoadQuizKeepsQuestions(stored: string, parse: string -> Option<Value>, nowIso: string)
    requires stored != [] && parse(stored).Some? && ValidShape(parse(stored).value)
    requires var raw := Field(parse(stored).value.fields, "questions").items;
      forall i :: 0 <= i < |raw| ==> !raw[i].Null? && !raw[i].Undefined?
    ensures var v := parse(stored).value;
      var raw := Field(v.fields, "questions").items;
      var r := LoadQuiz(Some(stored), parse, nowIso);
      && r.Ok?
      && r.value.title == Field(v.fields, "title")
      && |r.value.questions| == |raw|
      && (forall i :: 0 <= i < |raw| ==> Some(r.value.questions[i]) == LoadQuestion(raw[i]))
      && r.value.createdAt == (if Truthy(Field(v.fields, "createdAt")) then Field(v.fields, "createdAt") else Str(nowIso))
  {
  }
}
