/** The profile form of the settings page (src/app/settings/page.tsx):
    the display name split into first and last name when the page loads,
    the name joined back on save, the preference defaults, and the choice
    of what happens to the profile photo. The signed-in user's profile and
    user document are parameters. */
module SettingsPage {
  import opened Wrappers
  import opened Text
  import opened JsValues

  /** `displayName.split(" ")`: the first part, and the remaining parts
      joined back with single spaces. The first name has no space; with a
      space in the display name the two put together around one space give
      the display name back, and without one the last name is empty. */
  function SplitName(displayName: string): (r: (string, string))
    ensures ' ' !in r.0
    ensures r.0 <= displayName
    ensures ' ' in displayName ==> r.0 + " " + r.1 == displayName
    ensures ' ' !in displayName ==> r == (displayName, "")
  {
    var parts := Split(displayName, ' ');
    assert " " == [' '];
    assert Join(parts, [' ']) == displayName;
    assert ' ' in displayName ==> |parts| >= 2;
    (parts[0], Join(parts[1..], " "))
  }

  /** The display name saved: `${firstName} ${lastName}`, trimmed. */
  function SavedDisplayName(first: string, last: string): string {
    Trim(first + " " + last)
  }

  /** A name without white space at either end survives the split and
      the save unchanged. */
  lemma NameRoundTrip(name: string)
    requires name == [] || (!IsSpace(name[0]) && !IsSpace(name[|name| - 1]))
    ensures SavedDisplayName(SplitName(name).0, SplitName(name).1) == name
  {
    if ' ' !in name {
      assert SplitName(name).0 + " " + SplitName(name).1 == name + [' '];
      TrimAppendSpace(name);
    }
    TrimOfTrimmed(name);
  }

  /** The fields of the user document the page reads; an absent name is
      the empty string and an absent preference `undefined`. */
  datatype UserDoc = UserDoc(firstName: string, lastName: string, difficulty: Value, length: Value)

  datatype ProfileForm = ProfileForm(firstName: string, lastName: string, difficulty: Value, length: Value)

  /** The names taken from the display name, when there is one. */
  function NamesFromDisplayName(displayName: Option<string>): (r: (string, string))
    ensures displayName.None? || displayName.value == [] ==> r == ("", "")
    ensures displayName.Some? && displayName.value != [] ==> r == SplitName(displayName.value)
  {
    if displayName.Some? && displayName.value != [] then SplitName(displayName.value) else ("", "")
  }

  /** `loadUserData` as written: a user document with no name falls back
      to the form's state captured when the effect started, which is still
      the empty initial state, so the name split from the display name is
      overwritten with "". Preferences default to "medium" and "10". */
  function LoadProfileAsWritten(displayName: Option<string>, doc: Option<UserDoc>): (r: ProfileForm)
    ensures doc.None? ==> r == ProfileForm(NamesFromDisplayName(displayName).0, NamesFromDisplayName(displayName).1, Str("medium"), Str("10"))
    ensures doc.Some? ==> r.firstName == doc.value.firstName && r.lastName == doc.value.lastName
    ensures doc.Some? ==> r.difficulty == Or(doc.value.difficulty, Str("medium")) && r.length == Or(doc.value.length, Str("10"))
  {
    var names := NamesFromDisplayName(displayName);
    match doc
    case None => ProfileForm(names.0, names.1, Str("medium"), Str("10"))
    case Some(d) =>
      var capturedFirst := "";
      var capturedLast := "";
      ProfileForm(
        if d.firstName != "" then d.firstName else capturedFirst,
        if d.lastName != "" then d.lastName else capturedLast,
        Or(d.difficulty, Str("medium")),
        Or(d.length, Str("10")))
  }

  /** `loadUserData` as evidently intended: a name missing from the user
      document falls back to the one split from the display name. */
  function LoadProfile(displayName: Option<string>, doc: Option<UserDoc>): (r: ProfileForm)
    ensures var names := NamesFromDisplayName(displayName);
      && (r.firstName == if doc.Some? && doc.value.firstName != "" then doc.value.firstName else names.0)
      && (r.lastName == if doc.Some? && doc.value.lastName != "" then doc.value.lastName else names.1)
    ensures doc.None? ==> r.difficulty == Str("medium") && r.length == Str("10")
    ensures doc.Some? ==> r.difficulty == Or(doc.value.difficulty, Str("medium")) && r.length == Or(doc.value.length, Str("10"))
  {
    var names := NamesFromDisplayName(displayName);
    match doc
    case None => ProfileForm(names.0, names.1, Str("medium"), Str("10"))
    case Some(d) =>
      ProfileForm(
        if d.firstName != "" then d.firstName else names.0,
        if d.lastName != "" then d.lastName else names.1,
        Or(d.difficulty, Str("medium")),
        Or(d.length, Str("10")))
  }

  /** A user whose user document holds no names, say one with display name
      "Ada Lovelace": as written the form shows empty names, and saving it
      then stores an empty display name; the corrected load keeps the names,
      and saving gives the display name back. */
  lemma AsWrittenLoadLosesNames(name: string, prefs: Value)
    requires name != [] && !IsSpace(name[0]) && !IsSpace(name[|name| - 1])
    ensures var doc := Some(UserDoc("", "", prefs, prefs));
      var asWritten := LoadProfileAsWritten(Some(name), doc);
      var corrected := LoadProfile(Some(name), doc);
      && asWritten.firstName == "" && asWritten.lastName == ""
      && SavedDisplayName(asWritten.firstName, asWritten.lastName) == ""
      && SavedDisplayName(corrected.firstName, corrected.lastName) == name
  {
    LoadThenSaveKeepsDisplayName(name, Some(UserDoc("", "", prefs, prefs)));
    EmptyNamesSaveEmpty();
  }

  /** Saving two empty names stores an empty display name. */
  lemma EmptyNamesSaveEmpty()
    ensures SavedDisplayName("", "") == ""
  {
    assert "" + " " + "" == [' '];
    assert IsSpace(' ');
    BlankIffAllSpace([' ']);
  }

  /** With the corrected load, a profile whose user document has no names
      saves back the display name it started with. */
  lemma LoadThenSaveKeepsDisplayName(name: string, doc: Option<UserDoc>)
    requires name != [] && !IsSpace(name[0]) && !IsSpace(name[|name| - 1])
    requires doc.None? || (doc.value.firstName == "" && doc.value.lastName == "")
    ensures var f := LoadProfile(Some(name), doc);
      SavedDisplayName(f.firstName, f.lastName) == name
  {
    NameRoundTrip(name);
  }

  datatype PhotoAction = UploadPhoto | DeletePhoto | KeepPhoto

  /** The photo step of `handleSubmit`: a chosen file is uploaded;
      otherwise a cleared preview (`null`) with an existing photo deletes
      it; otherwise the photo is kept. */
  function PhotoActionFor(newFile: bool, previewUrl: Option<string>, currentPhoto: Option<string>): (r: PhotoAction)
    ensures r == UploadPhoto <==> newFile
    ensures r == DeletePhoto <==> !newFile && previewUrl.None? && currentPhoto.Some? && currentPhoto.value != ""
    ensures r == KeepPhoto <==> !newFile && (previewUrl.Some? || currentPhoto.None? || currentPhoto.value == "")
  {
    if newFile then UploadPhoto
    else if previewUrl.None? && currentPhoto.Some? && currentPhoto.value != "" then DeletePhoto
    else KeepPhoto
  }

  /** The photo address written to the profile: the uploaded file's
      address, `null`, or the current one. */
  function PhotoUrlAfterSave(newFile: bool, previewUrl: Option<string>, currentPhoto: Option<string>, uploadedUrl: string): (r: Option<string>)
    ensures newFile ==> r == Some(uploadedUrl)
    ensures PhotoActionFor(newFile, previewUrl, currentPhoto) == DeletePhoto ==> r.None?
    ensures PhotoActionFor(newFile, previewUrl, currentPhoto) == KeepPhoto ==> r == currentPhoto
  {
    match PhotoActionFor(newFile, previewUrl, currentPhoto)
    case UploadPhoto => Some(uploadedUrl)
    case DeletePhoto => None
    case KeepPhoto => currentPhoto
  }
}
