/** Quiz generation from study material (src/lib/gemini.ts): the title
    derived from the material, the extraction of the `{...}` object from a
    model reply, the validation and defaulting of each parsed question, the
    fallback question, and the loop that asks for one question at a time.
    The model call is a parameter `api` (the reply to the i-th request, or
    the error it throws) and `JSON.parse` is a parameter `parse`. */
module Gemini {
  import opened Wrappers
  import opened Text
  import opened JsValues

  datatype Difficulty = Easy | Medium | Hard

  function DifficultyName(d: Difficulty): string {
    match d
    case Easy => "easy"
    case Medium => "medium"
    case Hard => "hard"
  }

  // ---------------------------------------------------------------------
  // Title

  /** The title before the ellipsis: the first line, trimmed, cut to 50
      characters when it is longer than 10 characters; otherwise the first
      50 characters of the whole material. */
  function TitleBase(content: string): (r: string)
    ensures |r| <= 50
    ensures var line := Trim(FirstLine(content));
      |line| > 10 ==> r <= line && |r| == if |line| < 50 then |line| else 50
    ensures var line := Trim(FirstLine(content));
      |line| <= 10 ==> r <= content && |r| == if |content| < 50 then |content| else 50
  {
    var line := Trim(FirstLine(content));
    if |line| > 10 then Take(line, 50) else Take(content, 50)
  }

  /** The quiz title: `...` is appended exactly when the base title is
      shorter than the material, so a title never exceeds 53 characters. */
  function QuizTitle(content: string): (r: string)
    ensures |r| <= 53
    ensures TitleBase(content) <= r
    ensures r == TitleBase(content) + "..." <==> |TitleBase(content)| < |content|
    ensures r == TitleBase(content) <==> |TitleBase(content)| >= |content|
  {
    var base := TitleBase(content);
    if |base| < |content| then base + "..." else base
  }

  /** A short material is its own title; a long first line followed by
      more text gets the ellipsis even though the line itself was not cut. */
  lemma TitleExamples()
    ensures QuizTitle("Cells") == "Cells"
  {
    assert FirstLine("Cells") == "Cells";
    TrimOfTrimmed("Cells");
  }

  /** A first line of 11 to 50 characters, without surrounding white
      space, becomes the title whole; the ellipsis follows whenever more
      lines come after it, although nothing was cut. */
  lemma TitleFromFirstLine(line: string, rest: string)
    requires 10 < |line| <= 50 && '\n' !in line
    requires !IsSpace(line[0]) && !IsSpace(line[|line| - 1])
    ensures QuizTitle(line + "\n" + rest) == line + "..."
  {
    var content := line + "\n" + rest;
    assert forall i :: 0 <= i < |line| ==> content[i] == line[i];
    IndexOfFirst(content, '\n', |line|);
    assert FirstLine(content) == line;
    TrimOfTrimmed(line);
  }

  // ---------------------------------------------------------------------
  // Extracting the JSON object from a text reply

  const NoJsonMessage := "Could not find JSON object in response"
  const BadJsonMessage := "Could not parse JSON from response"
  const InvalidQuestionMessage := "Invalid question format returned from API"
  const TypeErrorMessage := "TypeError"
  const MissingKeyMessage := "Google API key is required. Please set NEXT_PUBLIC_GOOGLE_API_KEY in your environment variables."

  /** Some `{` comes before some `}` in the reply. */
  predicate HasBraces(data: string) {
    exists i, j :: 0 <= i < j < |data| && data[i] == '{' && data[j] == '}'
  }

  /** The text from the first `{` to the last `}`, both included; an error
      unless some `{` precedes some `}`. */
  function ExtractJson(data: string): (r: Result<string>)
    ensures r.Ok? <==> HasBraces(data)
    ensures r.Err? ==> r.error == NoJsonMessage
    ensures r.Ok? ==>
      var i := IndexOf(data, '{');
      var j := LastIndexOf(data, '}');
      0 <= i < j < |data| && r.value == data[i..j + 1]
      && '{' !in data[..i] && '}' !in data[j + 1..]
  {
    var start := IndexOf(data, '{');
    var end := LastIndexOf(data, '}');
    if start != -1 && end != -1 && end > start then
      Ok(data[start..end + 1])
    else
      FirstBeforeLast(data);
      Err(NoJsonMessage)
  }

  /** If some `{` precedes some `}`, the first `{` precedes the last `}`. */
  lemma FirstBeforeLast(data: string)
    ensures HasBraces(data) ==>
      var start := IndexOf(data, '{');
      var end := LastIndexOf(data, '}');
      start != -1 && end != -1 && end > start
  {
    if HasBraces(data) {
      var i, j :| 0 <= i < j < |data| && data[i] == '{' && data[j] == '}';
      IndexOfAtMost(data, '{', i);
      LastIndexOfAtLeast(data, '}', j);
    }
  }

  /** An object wrapped in text holding no other braces is extracted whole. */
  lemma ExtractWrapped(prefix: string, json: string, suffix: string)
    requires |json| >= 2 && json[0] == '{' && json[|json| - 1] == '}'
    requires '{' !in prefix && '}' !in suffix
    ensures ExtractJson(prefix + json + suffix) == Ok(json)
  {
    var data := prefix + json + suffix;
    var i := |prefix|;
    var j := |prefix| + |json| - 1;
    assert data[i] == '{' && data[j] == '}';
    assert forall k :: 0 <= k < i ==> data[k] == prefix[k];
    assert forall k :: j < k < |data| ==> data[k] == suffix[k - j - 1];
    IndexOfFirst(data, '{', i);
    LastIndexOfLast(data, '}', j);
    assert data[i..j + 1] == json;
  }

  // ---------------------------------------------------------------------
  // Validating a parsed question

  /** The checks a parsed question must pass (its `type` aside): a truthy
      question, an options array of at least two entries, a numeric
      `correctAnswer` (not bounds-checked) and a truthy explanation. */
  predicate PassesValidation(fields: map<string, Value>) {
    && Truthy(Field(fields, "question"))
    && Field(fields, "options").Arr?
    && |Field(fields, "options").items| >= 2
    && IsNumber(Field(fields, "correctAnswer"))
    && Truthy(Field(fields, "explanation"))
  }

  /** A question as the generator hands it on: an object with a truthy
      type that passes validation. */
  predicate WellFormedQuestion(v: Value) {
    v.Obj? && Truthy(Field(v.fields, "type")) && PassesValidation(v.fields)
  }

  /** A falsy `type` is set to `"multipleChoice"`; a truthy one is kept. */
  function WithDefaultType(fields: map<string, Value>): (r: map<string, Value>)
    ensures Truthy(Field(r, "type"))
    ensures PassesValidation(r) <==> PassesValidation(fields)
    ensures forall k :: k in fields && k != "type" ==> k in r && r[k] == fields[k]
    ensures r.Keys == fields.Keys + {"type"}
    ensures Truthy(Field(fields, "type")) ==> r == fields
  {
    if Truthy(Field(fields, "type")) then fields
    else fields["type" := Str("multipleChoice")]
  }

  /** The reply turned into a question, or the error caught by the loop:
      a text reply goes through extraction and `JSON.parse`; a `null` or
      `undefined` value, or a primitive whose `type` is assigned, throws a
      TypeError; an array fails validation. */
  function ParseQuestion(data: Value, parse: string -> Option<Value>): (r: Result<Value>)
    ensures r.Ok? ==> WellFormedQuestion(r.value)
    ensures data.Obj? ==> (r.Ok? <==> PassesValidation(data.fields))
    ensures data.Obj? && r.Ok? ==> r.value == Obj(WithDefaultType(data.fields))
    ensures data.Str? && !HasBraces(data.s) ==> r == Err(NoJsonMessage)
    ensures data.Str? && HasBraces(data.s) && parse(ExtractJson(data.s).value).None? ==> r == Err(BadJsonMessage)
    ensures !data.Str? && !data.Obj? ==> r.Err?
  {
    var parsed :=
      if data.Str? then
        match ExtractJson(data.s)
        case Err(e) => Err(e)
        case Ok(json) => (match parse(json) case None => Err(BadJsonMessage) case Some(v) => Ok(v))
      else Ok(data);
    match parsed
    case Err(e) => Err(e)
    case Ok(v) => Validate(v)
  }

  /** The type default and the validation applied to the parsed value. */
  function Validate(v: Value): (r: Result<Value>)
    ensures r.Ok? <==> v.Obj? && PassesValidation(v.fields)
    ensures r.Ok? ==> r.value == Obj(WithDefaultType(v.fields)) && WellFormedQuestion(r.value)
  {
    match v
    case Obj(fields) =>
      var typed := WithDefaultType(fields);
      if PassesValidation(typed) then Ok(Obj(typed)) else Err(InvalidQuestionMessage)
    case Arr(_) => Err(InvalidQuestionMessage)
    case _ => Err(TypeErrorMessage)
  }

  /** A question that is already well formed passes through unchanged, so
      validating is idempotent. */
  lemma ValidateWellFormed(v: Value, parse: string -> Option<Value>)
    requires WellFormedQuestion(v)
    ensures ParseQuestion(v, parse) == Ok(v)
    ensures Validate(v) == Ok(v)
  {
  }

  /** A text reply wrapping a well-formed object yields that object. */
  lemma TextReplyRoundTrip(prefix: string, json: string, suffix: string, v: Value, parse: string -> Option<Value>)
    requires |json| >= 2 && json[0] == '{' && json[|json| - 1] == '}'
    requires '{' !in prefix && '}' !in suffix
    requires parse(json) == Some(v) && WellFormedQuestion(v)
    ensures ParseQuestion(Str(prefix + json + suffix), parse) == Ok(v)
  {
    ExtractWrapped(prefix, json, suffix);
  }

  // ---------------------------------------------------------------------
  // Fallback and the generation loop

  const FallbackExplanation := "This is a fallback question due to an error in generating the content."

  /** The question pushed when the i-th reply cannot be used. */
  function Fallback(i: nat, difficulty: Difficulty): (r: Value)
    ensures WellFormedQuestion(r)
    ensures |Field(r.fields, "options").items| == 4
    ensures Field(r.fields, "correctAnswer") == Num(0)
    ensures Field(r.fields, "type") == Str("multipleChoice")
  {
    Obj(map[
      "type" := Str("multipleChoice"),
      "question" := Str("Question " + IntToString(i + 1) + " about the study material (" + DifficultyName(difficulty) + " difficulty)"),
      "options" := Arr([Str("First option"), Str("Second option"), Str("Third option"), Str("Fourth option")]),
      "correctAnswer" := Num(0),
      "explanation" := Str(FallbackExplanation)])
  }

  /** The question the i-th iteration pushes for a reply that arrived. */
  function QuestionFor(reply: Value, i: nat, difficulty: Difficulty, parse: string -> Option<Value>): (r: Value)
    ensures WellFormedQuestion(r)
    ensures ParseQuestion(reply, parse).Ok? ==> r == ParseQuestion(reply, parse).value
    ensures ParseQuestion(reply, parse).Err? ==> r == Fallback(i, difficulty)
  {
    match ParseQuestion(reply, parse)
    case Ok(q) => q
    case Err(_) => Fallback(i, difficulty)
  }

  datatype GeneratedQuiz = GeneratedQuiz(title: string, questions: seq<Value>)

  /** `!apiKey` is false. */
  predicate KeyPresent(apiKey: Option<string>) {
    apiKey.Some? && apiKey.value != ""
  }

  /** The loop of `getGeminiQuiz`: one request per question, each reply
      turned into exactly one question, `onProgress(i + 1)` after each; a
      request that throws ends the whole run with its error. */
  method AskQuestions(count: nat, difficulty: Difficulty, api: nat -> Result<Value>, parse: string -> Option<Value>)
    returns (r: Result<seq<Value>>, progress: seq<int>)
    ensures r.Ok? <==> forall k: nat :: k < count ==> api(k).Ok?
    ensures r.Ok? ==> |r.value| == count && |progress| == count
    ensures r.Ok? ==> forall k :: 0 <= k < |r.value| ==>
      api(k).Ok? && r.value[k] == QuestionFor(api(k).value, k, difficulty, parse)
    ensures forall k :: 0 <= k < |progress| ==> progress[k] == k + 1 && api(k).Ok?
    ensures r.Err? ==> |progress| < count && api(|progress|).Err? && r.error == api(|progress|).error
  {
    var questions: seq<Value> := [];
    progress := [];
    var i: nat := 0;
    while i < count
      invariant i <= count
      invariant |questions| == i && |progress| == i
      invariant forall k :: 0 <= k < i ==>
        && api(k).Ok?
        && questions[k] == QuestionFor(api(k).value, k, difficulty, parse)
        && progress[k] == k + 1
    {
      var reply := api(i);
      if reply.Err? {
        return Err(reply.error), progress;
      }
      var q := QuestionFor(reply.value, i, difficulty, parse);
      questions := questions + [q];
      progress := progress + [i + 1];
      i := i + 1;
    }
    r := Ok(questions);
  }

  /** `getGeminiQuiz(content, {difficulty, questionCount, onProgress})`.
      `progress` lists the values passed to `onProgress`, in call order. */
  method GetGeminiQuiz(
    content: string, difficulty: Difficulty, questionCount: int, apiKey: Option<string>,
    api: nat -> Result<Value>, parse: string -> Option<Value>)
    returns (r: Result<GeneratedQuiz>, progress: seq<int>)
    ensures !KeyPresent(apiKey) ==> r == Err(MissingKeyMessage) && progress == []
    ensures r.Ok? <==> KeyPresent(apiKey) && forall k: nat :: k < questionCount ==> api(k).Ok?
    ensures r.Ok? ==>
      && r.value.title == QuizTitle(content)
      && |r.value.questions| == (if questionCount > 0 then questionCount else 0)
      && |progress| == |r.value.questions|
    ensures r.Ok? ==> forall k :: 0 <= k < |r.value.questions| ==>
      api(k).Ok? && r.value.questions[k] == QuestionFor(api(k).value, k, difficulty, parse)
    ensures r.Ok? ==> forall k :: 0 <= k < |r.value.questions| ==> WellFormedQuestion(r.value.questions[k])
    ensures forall k :: 0 <= k < |progress| ==> progress[k] == k + 1 && api(k).Ok?
    ensures r.Err? && KeyPresent(apiKey) ==>
      |progress| < questionCount && api(|progress|).Err? && r.error == api(|progress|).error
  {
    if !KeyPresent(apiKey) {
      return Err(MissingKeyMessage), [];
    }
    var count: nat := if questionCount > 0 then questionCount else 0;
    var asked;
    asked, progress := AskQuestions(count, difficulty, api, parse);
    match asked
    case Err(e) =>
      r := Err(e);
    case Ok(questions) =>
      r := Ok(GeneratedQuiz(QuizTitle(content), questions));
  }
}
