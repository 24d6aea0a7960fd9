/** The submit logic of the upload page (src/app/upload/page.tsx): the
    free-play gate for guests, the choice of study material, the simulated
    progress counter, the normalisation of the generated questions and
    where the quiz goes afterwards. The file parser, the quiz generator,
    the new document's id and the clock are parameters. */
module UploadPage {
  import opened Wrappers
  import opened Text
  import opened JsValues
  import Gemini
  import QuizPage

  const GuestLimitMessage := "You've used all your free quizzes. Please sign in to continue."
  const UnsupportedFileMessage := "Unsupported file type"
  const NoMaterialMessage := "Please provide study material"
  const FallbackAlert := "Error processing your study material. Please try again."

  /** Number of quizzes a guest may generate. */
  const FreePlays := 2

  /** The MIME types `FileParser.isSupportedFileType` accepts. */
  const SupportedTypes: set<string> := {
    "application/pdf",
    "application/vnd.openxmlformats-officedocument.wordprocessingml.document",
    "application/vnd.openxmlformats-officedocument.presentationml.presentation",
    "text/plain"}

  datatype Tab = FileTab | TextTab

  /** `!user && freePlaysUsed >= 2`. */
  predicate GuestBlocked(signedIn: bool, freePlaysUsed: int) {
    !signedIn && freePlaysUsed >= FreePlays
  }

  /** The study material: the parsed file on the file tab, the text as
      typed (untrimmed) on the text tab when it is not blank. `file` is the
      chosen file's MIME type and `parsedFile` what the parser returns. */
  function MaterialFor(tab: Tab, file: Option<string>, text: string, parsedFile: string): (r: Result<string>)
    ensures r.Ok? && tab == FileTab ==> file.Some? && file.value in SupportedTypes && r.value == parsedFile
    ensures r.Ok? && tab == TextTab ==> !IsBlank(text) && r.value == text
    ensures r == Err(UnsupportedFileMessage) <==> tab == FileTab && file.Some? && file.value !in SupportedTypes
    ensures r == Err(NoMaterialMessage) <==> (tab == FileTab && file.None?) || (tab == TextTab && IsBlank(text))
  {
    assert UnsupportedFileMessage[0] != NoMaterialMessage[0];
    if tab == FileTab && file.Some? then
      if file.value in SupportedTypes then Ok(parsedFile) else Err(UnsupportedFileMessage)
    else if tab == TextTab && !IsBlank(text) then Ok(text)
    else
      assert tab == TextTab ==> IsBlank(text);
      Err(NoMaterialMessage)
  }

  /** The submit button is disabled while uploading, or when the active
      tab has no file or only blank text. */
  predicate SubmitDisabled(tab: Tab, file: Option<string>, text: string, uploading: bool) {
    (tab == FileTab && file.None?) || (tab == TextTab && IsBlank(text)) || uploading
  }

  /** An enabled submit button never meets the missing-material error:
      the only material error left is an unsupported file. */
  lemma EnabledSubmitHasMaterial(tab: Tab, file: Option<string>, text: string, parsedFile: string)
    requires !SubmitDisabled(tab, file, text, false)
    ensures MaterialFor(tab, file, text, parsedFile) != Err(NoMaterialMessage)
    ensures MaterialFor(tab, file, text, parsedFile).Err? ==>
      MaterialFor(tab, file, text, parsedFile) == Err(UnsupportedFileMessage)
  {
  }

  /** One tick of the simulated progress: one more question, capped at the
      requested count. */
  function ProgressTick(prev: int, questionCount: int): (r: int)
    ensures r <= questionCount
    ensures r <= prev + 1
    ensures r == prev + 1 || r == questionCount
  {
    var next := prev + 1;
    if next > questionCount then questionCount else next
  }

  /** The counter after `n` ticks from 0. */
  function Ticks(n: nat, questionCount: int): int {
    if n == 0 then 0 else ProgressTick(Ticks(n - 1, questionCount), questionCount)
  }

  /** After `n` ticks the counter shows `n`, or the requested count once
      `n` has reached it. */
  lemma {:induction false} TicksCount(n: nat, questionCount: int)
    ensures n == 0 ==> Ticks(n, questionCount) == 0
    ensures n > 0 ==> Ticks(n, questionCount) == if n < questionCount then n else questionCount
  {
    if n > 0 {
      TicksCount(n - 1, questionCount);
    }
  }

  /** The question handed on: the five fields of a multiple-choice
      question, with the type and the explanation defaulted and the others
      as generated. `None` is the TypeError of a null element. */
  function NormalizeGenerated(q: Value): (r: Option<map<string, Value>>)
    ensures r.None? <==> q.Null? || q.Undefined?
    ensures r.Some? ==> r.value.Keys == QuizPage.LoadedKeys
    ensures r.Some? ==> r.value["type"] == Or(QuizPage.Prop(q, "type"), Str("multipleChoice"))
    ensures r.Some? ==> r.value["explanation"] == Or(QuizPage.Prop(q, "explanation"), Str("No explanation provided"))
    ensures r.Some? ==> forall k :: k in {"question", "options", "correctAnswer"} ==> r.value[k] == QuizPage.Prop(q, k)
  {
    if q.Null? || q.Undefined? then None
    else
      Some(map[
        "type" := Or(QuizPage.Prop(q, "type"), Str("multipleChoice")),
        "question" := QuizPage.Prop(q, "question"),
        "options" := QuizPage.Prop(q, "options"),
        "correctAnswer" := QuizPage.Prop(q, "correctAnswer"),
        "explanation" := Or(QuizPage.Prop(q, "explanation"), Str("No explanation provided"))])
  }

  /** A question the generator hands on is normalised into exactly the
      form the quiz page loads, so loading it back changes nothing. */
  lemma NormalizedQuestionLoadsUnchanged(q: Value)
    requires Gemini.WellFormedQuestion(q)
    ensures NormalizeGenerated(q).Some?
    ensures QuizPage.LoadedQuestion(NormalizeGenerated(q).value)
    ensures QuizPage.LoadQuestion(Obj(NormalizeGenerated(q).value)) == NormalizeGenerated(q)
  {
    var m := NormalizeGenerated(q).value;
    var m2 := QuizPage.LoadQuestion(Obj(m)).value;
    assert m2.Keys == m.Keys;
    assert forall k :: k in m ==> m2[k] == m[k];
  }

  /** The quiz guests keep in session storage under `currentQuiz`. */
  function GuestQuiz(title: string, questions: seq<map<string, Value>>, nowIso: string): (r: Value)
    ensures r.Obj? && r.fields.Keys == {"title", "questions", "createdAt"}
    ensures r.fields["title"] == Str(title) && r.fields["createdAt"] == Str(nowIso)
    ensures r.fields["questions"].Arr? && |r.fields["questions"].items| == |questions|
    ensures forall i :: 0 <= i < |questions| ==> r.fields["questions"].items[i] == Obj(questions[i])
  {
    Obj(map[
      "title" := Str(title),
      "questions" := Arr(seq(|questions|, i requires 0 <= i < |questions| => Obj(questions[i]))),
      "createdAt" := Str(nowIso)])
  }

  /** What a submission ends in. Every outcome carries the free-play count
      afterwards. */
  datatype Outcome =
    | Alerted(alert: string, freePlaysUsed: int)
    | SavedForUser(route: string, document: map<string, Value>, freePlaysUsed: int)
    | SavedForGuest(route: string, currentQuiz: Value, freePlaysUsed: int)

  /** `error.message || "Error processing ..."`. */
  function AlertFor(message: string): (r: string)
    ensures r != []
    ensures message != [] ==> r == message
  {
    if message != [] then message else FallbackAlert
  }

  /** The generated questions, normalised; any null element fails. */
  function NormalizeAll(qs: seq<Value>): (r: Option<seq<map<string, Value>>>)
    ensures r.Some? <==> forall i :: 0 <= i < |qs| ==> !qs[i].Null? && !qs[i].Undefined?
    ensures r.Some? ==> |r.value| == |qs| && forall i :: 0 <= i < |qs| ==> Some(r.value[i]) == NormalizeGenerated(qs[i])
  {
    if exists i :: 0 <= i < |qs| && (qs[i].Null? || qs[i].Undefined?) then None
    else Some(seq(|qs|, i requires 0 <= i < |qs| => NormalizeGenerated(qs[i]).value))
  }

  /** `handleSubmit`. `user` is the signed-in user's id; `generate` stands
      for `getGeminiQuiz` with the chosen difficulty and count. */
  function Submit(
    user: Option<string>, freePlaysUsed: int,
    tab: Tab, file: Option<string>, text: string, parsedFile: string,
    difficulty: Gemini.Difficulty, questionCount: int,
    generate: string -> Result<Gemini.GeneratedQuiz>, quizId: string, nowIso: string): (r: Outcome)
    ensures GuestBlocked(user.Some?, freePlaysUsed) ==> r == Alerted(GuestLimitMessage, freePlaysUsed)
    ensures !GuestBlocked(user.Some?, freePlaysUsed) && MaterialFor(tab, file, text, parsedFile).Err? ==>
      r == Alerted(MaterialFor(tab, file, text, parsedFile).error, freePlaysUsed)
    ensures r.Alerted? ==> r.alert != [] && r.freePlaysUsed == freePlaysUsed
    ensures !r.Alerted? ==>
      && !GuestBlocked(user.Some?, freePlaysUsed)
      && MaterialFor(tab, file, text, parsedFile).Ok?
      && generate(MaterialFor(tab, file, text, parsedFile).value).Ok?
    ensures r.SavedForUser? <==> user.Some? && !r.Alerted?
    ensures r.SavedForUser? ==>
      && r.route == "/quiz/" + quizId && r.freePlaysUsed == freePlaysUsed
      && "userId" in r.document && r.document["userId"] == Str(user.value)
      && "completed" in r.document && r.document["completed"] == Bool(false)
    ensures r.SavedForGuest? <==> user.None? && !r.Alerted?
    ensures r.SavedForGuest? ==> r.route == "/quiz" && r.freePlaysUsed == freePlaysUsed + 1
    ensures var m := MaterialFor(tab, file, text, parsedFile);
      !GuestBlocked(user.Some?, freePlaysUsed) && m.Ok? && generate(m.value).Err? ==>
        r == Alerted(AlertFor(generate(m.value).error), freePlaysUsed)
    ensures var m := MaterialFor(tab, file, text, parsedFile);
      !GuestBlocked(user.Some?, freePlaysUsed) && m.Ok? && generate(m.value).Ok?
      && NormalizeAll(generate(m.value).value.questions).None? ==>
        r == Alerted(Gemini.TypeErrorMessage, freePlaysUsed)
    ensures !r.Alerted? ==>
      NormalizeAll(generate(MaterialFor(tab, file, text, parsedFile).value).value.questions).Some?
    ensures r.SavedForUser? ==>
      var quiz := generate(MaterialFor(tab, file, text, parsedFile).value).value;
      var qs := NormalizeAll(quiz.questions).value;
      && r.document.Keys == {"userId", "title", "questions", "difficulty", "questionCount", "completed"}
      && r.document["title"] == Str(quiz.title)
      && r.document["difficulty"] == Str(Gemini.DifficultyName(difficulty))
      && r.document["questionCount"] == Num(questionCount)
      && r.document["questions"].Arr? && |r.document["questions"].items| == |quiz.questions|
      && forall i :: 0 <= i < |quiz.questions| ==>
           r.document["questions"].items[i] == Obj(NormalizeGenerated(quiz.questions[i]).value)
    ensures r.SavedForGuest? ==>
      var quiz := generate(MaterialFor(tab, file, text, parsedFile).value).value;
      r.currentQuiz == GuestQuiz(quiz.title, NormalizeAll(quiz.questions).value, nowIso)
  {
    if GuestBlocked(user.Some?, freePlaysUsed) then Alerted(GuestLimitMessage, freePlaysUsed)
    else
      match MaterialFor(tab, file, text, parsedFile)
      case Err(e) => Alerted(e, freePlaysUsed)
      case Ok(content) =>
        match generate(content)
        case Err(e) => Alerted(AlertFor(e), freePlaysUsed)
        case Ok(quiz) =>
          match NormalizeAll(quiz.questions)
          case None => Alerted(Gemini.TypeErrorMessage, freePlaysUsed)
          case Some(questions) =>
            var items := seq(|questions|, i requires 0 <= i < |questions| => Obj(questions[i]));
            if user.Some? then
              SavedForUser("/quiz/" + quizId, map[
                "userId" := Str(user.value),
                "title" := Str(quiz.title),
                "questions" := Arr(items),
                "difficulty" := Str(Gemini.DifficultyName(difficulty)),
                "questionCount" := Num(questionCount),
                "completed" := Bool(false)], freePlaysUsed)
            else
              SavedForGuest("/quiz", GuestQuiz(quiz.title, questions, nowIso), freePlaysUsed + 1)
  }

  /** A guest who starts with no free plays used can never get past two:
      each successful run adds exactly one, and a guest at the limit is
      turned away. A signed-in user's count never moves. */
  lemma FreePlayCounter(
    user: Option<string>, freePlaysUsed: int,
    tab: Tab, file: Option<string>, text: string, parsedFile: string,
    difficulty: Gemini.Difficulty, questionCount: int,
    generate: string -> Result<Gemini.GeneratedQuiz>, quizId: string, nowIso: string)
    requires 0 <= freePlaysUsed <= FreePlays
    ensures var r := Submit(user, freePlaysUsed, tab, file, text, parsedFile, difficulty, questionCount, generate, quizId, nowIso);
      && 0 <= r.freePlaysUsed <= FreePlays
      && (user.Some? ==> r.freePlaysUsed == freePlaysUsed)
      && (r.freePlaysUsed != freePlaysUsed ==> r.SavedForGuest? && r.freePlaysUsed == freePlaysUsed + 1)
  {
  }

  /** The quiz a guest run stores reads back on the quiz page with the
      same title, the same questions in the same order and the run's time
      stamp, when storage hands back what was written. */
  lemma GuestQuizLoadsBack(
    tab: Tab, file: Option<string>, text: string, parsedFile: string,
    freePlaysUsed: int, difficulty: Gemini.Difficulty, questionCount: int,
    generate: string -> Result<Gemini.GeneratedQuiz>, nowIso: string,
    stored: string, parse: string -> Option<Value>, laterIso: string)
    requires var r := Submit(None, freePlaysUsed, tab, file, text, parsedFile, difficulty, questionCount, generate, "", nowIso);
      r.SavedForGuest? && stored != [] && parse(stored) == Some(r.currentQuiz)
    requires var quiz := generate(MaterialFor(tab, file, text, parsedFile).value);
      quiz.Ok? && quiz.value.title != [] && nowIso != []
      && forall i :: 0 <= i < |quiz.value.questions| ==> Gemini.WellFormedQuestion(quiz.value.questions[i])
    ensures var quiz := generate(MaterialFor(tab, file, text, parsedFile).value).value;
      var loaded := QuizPage.LoadQuiz(Some(stored), parse, laterIso);
      && loaded.Ok?
      && loaded.value.title == Str(quiz.title)
      && |loaded.value.questions| == |quiz.questions|
      && (forall i :: 0 <= i < |quiz.questions| ==> Some(loaded.value.questions[i]) == NormalizeGenerated(quiz.questions[i]))
      && loaded.value.createdAt == Str(nowIso)
  {
    var quiz := generate(MaterialFor(tab, file, text, parsedFile).value).value;
    var questions := NormalizeAll(quiz.questions).value;
    var v := GuestQuiz(quiz.title, questions, nowIso);
    var raw := Field(v.fields, "questions").items;
    assert |raw| == |quiz.questions|;
    forall i | 0 <= i < |raw|
      ensures QuizPage.LoadQuestion(raw[i]) == NormalizeGenerated(quiz.questions[i])
    {
      NormalizedQuestionLoadsUnchanged(quiz.questions[i]);
    }
    QuizPage.LoadQuizKeepsQuestions(stored, parse, laterIso);
  }
}
