/** The settings record of src/lib/context/settings-context.tsx: four
    groups of preferences with their defaults, the shallow merge applied
    when stored settings are loaded, and the update operations. Settings
    are an object record whose groups are objects; where they are stored
    (the document store for a signed-in user, local storage for a guest)
    and `JSON.parse` are parameters. */
module SettingsContext {
  import opened Wrappers
  import opened JsValues

  type Settings = map<string, Value>

  datatype QuizTypeKey = MultipleChoiceType | ShortAnswerType | MatchingType | PuzzleType
  datatype FeatureKey = AiHints | Explanations | ProgressiveUnlock
  datatype UiKey = DarkMode | Animations | SoundEffects
  datatype StudyKey = QuestionsPerQuiz | StudyDifficulty | ReviewMistakes

  function QuizTypeName(k: QuizTypeKey): string {
    match k
    case MultipleChoiceType => "multipleChoice"
    case ShortAnswerType => "shortAnswer"
    case MatchingType => "matching"
    case PuzzleType => "puzzle"
  }

  function FeatureName(k: FeatureKey): string {
    match k
    case AiHints => "aiHints"
    case Explanations => "explanations"
    case ProgressiveUnlock => "progressiveUnlock"
  }

  function UiName(k: UiKey): string {
    match k
    case DarkMode => "darkMode"
    case Animations => "animations"
    case SoundEffects => "soundEffects"
  }

  function StudyName(k: StudyKey): string {
    match k
    case QuestionsPerQuiz => "questionsPerQuiz"
    case StudyDifficulty => "difficulty"
    case ReviewMistakes => "reviewMistakes"
  }

  const GroupNames: set<string> := {"quizTypes", "features", "ui", "study"}

  /** `defaultSettings`: only multiple choice enabled, explanations on,
      system colour scheme with animations, five medium questions per quiz
      with mistakes reviewed. */
  function DefaultSettings(): (r: Settings)
    ensures r.Keys == GroupNames
    ensures forall g :: g in r ==> r[g].Obj?
  {
    map[
      "quizTypes" := Obj(map[
        "multipleChoice" := Bool(true), "shortAnswer" := Bool(false),
        "matching" := Bool(false), "puzzle" := Bool(false)]),
      "features" := Obj(map[
        "aiHints" := Bool(false), "explanations" := Bool(true), "progressiveUnlock" := Bool(false)]),
      "ui" := Obj(map[
        "darkMode" := Str("system"), "animations" := Bool(true), "soundEffects" := Bool(false)]),
      "study" := Obj(map[
        "questionsPerQuiz" := Num(5), "difficulty" := Str("medium"), "reviewMistakes" := Bool(true)])]
  }

  /** The own fields `{...v}` copies. Only objects contribute fields here;
      the index keys a spread string or array would add are not modelled. */
  function SpreadFields(v: Value): map<string, Value> {
    if v.Obj? then v.fields else map[]
  }

  /** Where stored settings come from. */
  datatype Stored =
    | SignedIn(document: Option<map<string, Value>>)
    | Guest(saved: Option<string>)
    | ReadFailed

  /** `loadSettings`: the defaults with the stored top-level fields spread
      over them; a stored group replaces the whole default group. Missing
      or unreadable settings give the defaults. */
  function LoadSettings(stored: Stored, parse: string -> Option<Value>): (r: Settings)
    ensures (stored.ReadFailed? || (stored.SignedIn? && stored.document.None?)
             || (stored.Guest? && (stored.saved.None? || stored.saved.value == [])))
            ==> r == DefaultSettings()
    ensures stored.SignedIn? && stored.document.Some? ==>
      && (forall k :: k in stored.document.value ==> k in r && r[k] == stored.document.value[k])
      && (forall g :: g in GroupNames && g !in stored.document.value ==> g in r && r[g] == DefaultSettings()[g])
    ensures stored.SignedIn? && stored.document.Some? ==> r.Keys == GroupNames + stored.document.value.Keys
    ensures stored.Guest? && stored.saved.Some? && stored.saved.value != [] ==>
      match parse(stored.saved.value)
      case None => r == DefaultSettings()
      case Some(v) =>
        && r.Keys == GroupNames + SpreadFields(v).Keys
        && (forall k :: k in SpreadFields(v) ==> r[k] == SpreadFields(v)[k])
        && (forall g :: g in GroupNames && g !in SpreadFields(v) ==> r[g] == DefaultSettings()[g])
    ensures r.Keys >= GroupNames
  {
    match stored
    case ReadFailed => DefaultSettings()
    case SignedIn(None) => DefaultSettings()
    case SignedIn(Some(data)) => DefaultSettings() + data
    case Guest(saved) =>
      if saved.None? || saved.value == [] then DefaultSettings()
      else
        match parse(saved.value)
        case None => DefaultSettings()
        case Some(v) => DefaultSettings() + SpreadFields(v)
  }

  /** A guest's saved settings with a partial `quizTypes` group lose the
      default quiz-type flags that group leaves out: the merge is shallow. */
  lemma ShallowMergeDropsDefaults(text: string, parse: string -> Option<Value>)
    requires text != []
    requires parse(text) == Some(Obj(map["quizTypes" := Obj(map["puzzle" := Bool(true)])]))
    ensures var r := LoadSettings(Guest(Some(text)), parse);
      && r["quizTypes"] == Obj(map["puzzle" := Bool(true)])
      && "multipleChoice" !in r["quizTypes"].fields
      && r["features"] == DefaultSettings()["features"]
  {
  }

  /** `updateSettings(partial)`: the given groups replace the current ones. */
  function UpdateSettings(s: Settings, partial: map<string, Value>): (r: Settings)
    ensures r.Keys == s.Keys + partial.Keys
    ensures forall k :: k in partial ==> r[k] == partial[k]
    ensures forall k :: k in s && k !in partial ==> r[k] == s[k]
  {
    s + partial
  }

  /** Sets one key of one group, keeping the rest of the group and the
      other groups: the shared shape of the four per-key updates. */
  function SetInGroup(s: Settings, group: string, key: string, value: Value): (r: Settings)
    ensures r.Keys == s.Keys + {group}
    ensures r[group].Obj? && key in r[group].fields && r[group].fields[key] == value
    ensures group in s ==> forall k :: k in SpreadFields(s[group]) && k != key ==>
      k in r[group].fields && r[group].fields[k] == SpreadFields(s[group])[k]
    ensures forall g :: g in s && g != group ==> r[g] == s[g]
  {
    var current := if group in s then SpreadFields(s[group]) else map[];
    s[group := Obj(current[key := value])]
  }

  function UpdateQuizType(s: Settings, k: QuizTypeKey, value: bool): (r: Settings)
    ensures r.Keys == s.Keys + {"quizTypes"}
    ensures r["quizTypes"].Obj? && QuizTypeName(k) in r["quizTypes"].fields && r["quizTypes"].fields[QuizTypeName(k)] == Bool(value)
    ensures "quizTypes" in s ==> forall t :: t in SpreadFields(s["quizTypes"]) && t != QuizTypeName(k) ==>
      t in r["quizTypes"].fields && r["quizTypes"].fields[t] == SpreadFields(s["quizTypes"])[t]
    ensures forall g :: g in s && g != "quizTypes" ==> r[g] == s[g]
  {
    SetInGroup(s, "quizTypes", QuizTypeName(k), Bool(value))
  }

  function UpdateFeature(s: Settings, k: FeatureKey, value: bool): (r: Settings)
    ensures r.Keys == s.Keys + {"features"}
    ensures r["features"].Obj? && FeatureName(k) in r["features"].fields && r["features"].fields[FeatureName(k)] == Bool(value)
    ensures "features" in s ==> forall t :: t in SpreadFields(s["features"]) && t != FeatureName(k) ==>
      t in r["features"].fields && r["features"].fields[t] == SpreadFields(s["features"])[t]
    ensures forall g :: g in s && g != "features" ==> r[g] == s[g]
  {
    SetInGroup(s, "features", FeatureName(k), Bool(value))
  }

  function UpdateUiPreference(s: Settings, k: UiKey, value: Value): (r: Settings)
    ensures r.Keys == s.Keys + {"ui"}
    ensures r["ui"].Obj? && UiName(k) in r["ui"].fields && r["ui"].fields[UiName(k)] == value
    ensures "ui" in s ==> forall t :: t in SpreadFields(s["ui"]) && t != UiName(k) ==>
      t in r["ui"].fields && r["ui"].fields[t] == SpreadFields(s["ui"])[t]
    ensures forall g :: g in s && g != "ui" ==> r[g] == s[g]
  {
    SetInGroup(s, "ui", UiName(k), value)
  }

  function UpdateStudyPreference(s: Settings, k: StudyKey, value: Value): (r: Settings)
    ensures r.Keys == s.Keys + {"study"}
    ensures r["study"].Obj? && StudyName(k) in r["study"].fields && r["study"].fields[StudyName(k)] == value
    ensures "study" in s ==> forall t :: t in SpreadFields(s["study"]) && t != StudyName(k) ==>
      t in r["study"].fields && r["study"].fields[t] == SpreadFields(s["study"])[t]
    ensures forall g :: g in s && g != "study" ==> r[g] == s[g]
  {
    SetInGroup(s, "study", StudyName(k), value)
  }

  /** `updateQuizType(k, v)` sets that flag and changes nothing else. */
  lemma UpdateQuizTypeChangesOneKey(s: Settings, k: QuizTypeKey, value: bool)
    requires "quizTypes" in s && s["quizTypes"].Obj?
    ensures var r := UpdateQuizType(s, k, value);
      && r.Keys == s.Keys
      && r["quizTypes"].Obj?
      && r["quizTypes"].fields.Keys == s["quizTypes"].fields.Keys + {QuizTypeName(k)}
      && r["quizTypes"].fields[QuizTypeName(k)] == Bool(value)
      && (forall t :: t in s["quizTypes"].fields && t != QuizTypeName(k) ==> r["quizTypes"].fields[t] == s["quizTypes"].fields[t])
      && (forall g :: g in s && g != "quizTypes" ==> r[g] == s[g])
  {
  }

  /** Setting a key to the value it already holds leaves the settings as
      they were. */
  lemma SetToCurrentValueIsNoop(s: Settings, group: string, key: string)
    requires group in s && s[group].Obj? && key in s[group].fields
    ensures SetInGroup(s, group, key, s[group].fields[key]) == s
  {
    var fields := s[group].fields;
    assert fields[key := fields[key]] == fields;
  }

  /** Setting the same key twice keeps only the later value. */
  lemma SetInGroupOverwrites(s: Settings, group: string, key: string, v1: Value, v2: Value)
    ensures SetInGroup(SetInGroup(s, group, key, v1), group, key, v2) == SetInGroup(s, group, key, v2)
  {
    var current := if group in s then SpreadFields(s[group]) else map[];
    assert current[key := v1][key := v2] == current[key := v2];
  }

  /** Updates to different groups commute. */
  lemma UpdatesInDifferentGroupsCommute(s: Settings, k1: QuizTypeKey, b: bool, k2: StudyKey, v: Value)
    ensures UpdateStudyPreference(UpdateQuizType(s, k1, b), k2, v) == UpdateQuizType(UpdateStudyPreference(s, k2, v), k1, b)
  {
  }

  /** `resetToDefaults`. */
  function ResetToDefaults(s: Settings): (r: Settings)
    ensures r == DefaultSettings()
    ensures r == LoadSettings(ReadFailed, _ => None)
  {
    DefaultSettings()
  }
}
