/** The normalisation `fetchQuizById` and `subscribeToQuiz` apply to a quiz
    document read from the store (src/lib/firebase/firestore.ts). The
    document data is an object record; reading it, the document id and
    the current time (as the ISO string `new Date().toISOString()` gives)
    are parameters. */
module Firestore {
  import opened Wrappers
  import opened JsValues

  /** The five fields a normalised question carries. */
  const QuestionKeys: set<string> := {"question", "options", "correctOptionIndex", "explanation", "type"}

  const NoQuestionText := "No question text"
  const NoOptions := "No options available"
  const NoExplanation := "No explanation provided"

  /** `q.key` on a question that is not `null` or `undefined`. */
  function Prop(q: Value, key: string): Value {
    Get(q, key).GetOr(Undefined)
  }

  /** The shape every normalised question has: exactly the five fields, a
      truthy question, explanation and type, an options array and a
      numeric option index. */
  predicate NormalQuestion(m: map<string, Value>) {
    && m.Keys == QuestionKeys
    && Truthy(m["question"])
    && m["options"].Arr?
    && IsNumber(m["correctOptionIndex"])
    && Truthy(m["explanation"])
    && Truthy(m["type"])
  }

  /** One question of the `map` callback; `None` is the TypeError a `null`
      or `undefined` element raises. Present values are kept, missing or
      ill-typed ones replaced by the defaults, and every other field
      (`correctAnswer`, `answers`, `pairs`, `steps`, ...) is dropped. */
  function NormalizeQuestion(q: Value): (r: Option<map<string, Value>>)
    ensures r.None? <==> q.Null? || q.Undefined?
    ensures r.Some? ==> NormalQuestion(r.value)
    ensures r.Some? && Truthy(Prop(q, "question")) ==> r.value["question"] == Prop(q, "question")
    ensures r.Some? && Prop(q, "options").Arr? ==> r.value["options"] == Prop(q, "options")
    ensures r.Some? && IsNumber(Prop(q, "correctOptionIndex")) ==>
      r.value["correctOptionIndex"] == Prop(q, "correctOptionIndex")
    ensures r.Some? && !IsNumber(Prop(q, "correctOptionIndex")) ==> r.value["correctOptionIndex"] == Num(0)
    ensures r.Some? && !Prop(q, "options").Arr? ==> r.value["options"] == Arr([Str(NoOptions)])
    ensures r.Some? && !Truthy(Prop(q, "question")) ==> r.value["question"] == Str(NoQuestionText)
    ensures r.Some? && Truthy(Prop(q, "explanation")) ==> r.value["explanation"] == Prop(q, "explanation")
    ensures r.Some? && !Truthy(Prop(q, "explanation")) ==> r.value["explanation"] == Str(NoExplanation)
    ensures r.Some? && Truthy(Prop(q, "type")) ==> r.value["type"] == Prop(q, "type")
    ensures r.Some? && !Truthy(Prop(q, "type")) ==> r.value["type"] == Str("multipleChoice")
  {
    if q.Null? || q.Undefined? then None
    else
      Some(map[
        "question" := Or(Prop(q, "question"), Str(NoQuestionText)),
        "options" := if Prop(q, "options").Arr? then Prop(q, "options") else Arr([Str(NoOptions)]),
        "correctOptionIndex" := if IsNumber(Prop(q, "correctOptionIndex")) then Prop(q, "correctOptionIndex") else Num(0),
        "explanation" := Or(Prop(q, "explanation"), Str(NoExplanation)),
        "type" := Or(Prop(q, "type"), Str("multipleChoice"))])
  }

  /** A question already in normal shape normalises to itself. */
  lemma NormalQuestionIsFixed(m: map<string, Value>)
    requires NormalQuestion(m)
    ensures NormalizeQuestion(Obj(m)) == Some(m)
  {
    var q := Obj(m);
    var m2 := NormalizeQuestion(q).value;
    assert forall k :: k in QuestionKeys ==> Prop(q, k) == m[k];
    assert m2.Keys == m.Keys;
    assert forall k :: k in m ==> m2[k] == m[k];
    assert m2 == m;
  }

  /** A normalised question is left as it is: normalising twice is
      normalising once. */
  lemma NormalizeQuestionIdempotent(q: Value)
    requires !q.Null? && !q.Undefined?
    ensures NormalizeQuestion(Obj(NormalizeQuestion(q).value)) == NormalizeQuestion(q)
  {
    var m := NormalizeQuestion(q).value;
    var q := Obj(m);
    var m2 := NormalizeQuestion(q).value;
    assert forall k :: k in QuestionKeys ==> Prop(q, k) == m[k];
    assert m2.Keys == m.Keys;
    assert forall k :: k in m ==> m2[k] == m[k];
  }

  /** `questions.map(...)`: `None` when some element is `null` or
      `undefined`; otherwise one normalised question per element, in order. */
  function NormalizeAll(qs: seq<Value>): (r: Option<seq<map<string, Value>>>)
    ensures r.None? <==> exists i :: 0 <= i < |qs| && (qs[i].Null? || qs[i].Undefined?)
    ensures r.Some? ==> |r.value| == |qs|
    ensures r.Some? ==> forall i :: 0 <= i < |qs| ==> Some(r.value[i]) == NormalizeQuestion(qs[i])
  {
    if forall i :: 0 <= i < |qs| ==> !qs[i].Null? && !qs[i].Undefined? then
      Some(seq(|qs|, i requires 0 <= i < |qs| => NormalizeQuestion(qs[i]).value))
    else
      None
  }

  function AsObjects(ms: seq<map<string, Value>>): (r: seq<Value>)
    ensures |r| == |ms| && forall i :: 0 <= i < |ms| ==> r[i] == Obj(ms[i])
  {
    seq(|ms|, i requires 0 <= i < |ms| => Obj(ms[i]))
  }

  /** The object the `catch` falls back to when a question cannot be read. */
  function ErrorQuiz(id: string, nowIso: string): map<string, Value> {
    map["id" := Str(id), "title" := Str("Error Loading Quiz"), "questions" := Arr([]), "createdAt" := Str(nowIso)]
  }

  /** The defaults written before the document's own fields are spread over them. */
  function Defaults(id: string, raw: map<string, Value>, nowIso: string): map<string, Value> {
    map[
      "id" := Str(id),
      "title" := Or(Field(raw, "title"), Str("Untitled Quiz")),
      "questions" := Arr([]),
      "createdAt" := Or(Field(raw, "createdAt"), Str(nowIso))]
  }

  /** The questions the document carries: its `questions` array, or none. */
  function RawQuestions(merged: map<string, Value>): seq<Value> {
    if "questions" in merged && merged["questions"].Arr? then merged["questions"].items else []
  }

  /** The quiz object built from document `id` with data `raw`. */
  function NormalizeQuiz(id: string, raw: map<string, Value>, nowIso: string): (r: map<string, Value>)
    ensures "questions" in r && r["questions"].Arr?
    ensures forall i :: 0 <= i < |r["questions"].items| ==>
      r["questions"].items[i].Obj? && NormalQuestion(r["questions"].items[i].fields)
    ensures {"id", "title", "createdAt"} <= r.Keys
  {
    var merged := Defaults(id, raw, nowIso) + raw;
    match NormalizeAll(RawQuestions(merged))
    case None => ErrorQuiz(id, nowIso)
    case Some(ns) => merged["questions" := Arr(AsObjects(ns))]
  }

  /** The title: the document's own `title` whenever the key is present
      (even a falsy one), "Untitled Quiz" only when it is absent; the same
      for `createdAt` and `id`. Every other field of the document is kept,
      and the questions keep their number and order. */
  lemma NormalizeQuizFields(id: string, raw: map<string, Value>, nowIso: string)
    requires NormalizeAll(RawQuestions(raw)).Some?
    ensures var r := NormalizeQuiz(id, raw, nowIso);
      && (r["title"] == if "title" in raw then raw["title"] else Str("Untitled Quiz"))
      && (r["createdAt"] == if "createdAt" in raw then raw["createdAt"] else Str(nowIso))
      && (r["id"] == if "id" in raw then raw["id"] else Str(id))
      && (forall k :: k in raw && k != "questions" ==> k in r && r[k] == raw[k])
      && r.Keys == raw.Keys + {"id", "title", "questions", "createdAt"}
      && |r["questions"].items| == |RawQuestions(raw)|
      && (forall i :: 0 <= i < |RawQuestions(raw)| ==>
            Some(r["questions"].items[i].fields) == NormalizeQuestion(RawQuestions(raw)[i]))
  {
    var merged := Defaults(id, raw, nowIso) + raw;
    assert RawQuestions(merged) == RawQuestions(raw);
  }

  /** A document whose questions include `null` yields the error quiz. */
  lemma NullQuestionGivesErrorQuiz(id: string, raw: map<string, Value>, nowIso: string, i: nat)
    requires i < |RawQuestions(raw)| && RawQuestions(raw)[i].Null?
    ensures NormalizeQuiz(id, raw, nowIso) == ErrorQuiz(id, nowIso)
  {
    var merged := Defaults(id, raw, nowIso) + raw;
    assert RawQuestions(merged) == RawQuestions(raw);
  }

  /** Normalising an already normalised quiz changes nothing. */
  lemma NormalizeQuizIdempotent(id: string, raw: map<string, Value>, nowIso: string)
    ensures NormalizeQuiz(id, NormalizeQuiz(id, raw, nowIso), nowIso) == NormalizeQuiz(id, raw, nowIso)
  {
    var r1 := NormalizeQuiz(id, raw, nowIso);
    var merged := Defaults(id, r1, nowIso) + r1;
    assert merged == r1;
    var qs := RawQuestions(r1);
    assert forall i :: 0 <= i < |qs| ==> qs[i].Obj? && NormalQuestion(qs[i].fields);
    forall i | 0 <= i < |qs|
      ensures NormalizeQuestion(qs[i]) == Some(qs[i].fields)
    {
      NormalQuestionIsFixed(qs[i].fields);
    }
    var ns := NormalizeAll(qs).value;
    assert AsObjects(ns) == qs;
    assert r1["questions" := Arr(qs)] == r1;
  }

  /** What a snapshot listener sees. */
  datatype SnapshotEvent = Exists(docId: string, data: map<string, Value>) | NoDocument | ListenerError

  /** `fetchQuizById`: the normalised quiz, or `null` when no document exists. */
  function FetchQuizById(doc: Option<(string, map<string, Value>)>, nowIso: string): (r: Option<map<string, Value>>)
    ensures r.None? <==> doc.None?
    ensures r.Some? ==> r.value == NormalizeQuiz(doc.value.0, doc.value.1, nowIso)
  {
    match doc
    case None => None
    case Some(d) => Some(NormalizeQuiz(d.0, d.1, nowIso))
  }

  /** The value `subscribeToQuiz` passes its callback: the same
      normalisation as `fetchQuizById`, and `null` for a missing document
      or a listener error. */
  function SubscribeToQuiz(event: SnapshotEvent, nowIso: string): (r: Option<map<string, Value>>)
    ensures r.None? <==> !event.Exists?
    ensures event.Exists? ==> r == FetchQuizById(Some((event.docId, event.data)), nowIso)
  {
    match event
    case Exists(id, data) => Some(NormalizeQuiz(id, data, nowIso))
    case _ => None
  }
}
