/** The form logic of the login page (src/app/login/page.tsx): the order
    of the email sign-in and sign-up checks, the switch between the two
    modes, the provider check, and the guest banner with its "Continue as
    guest" button. The authentication service and local storage are
    parameters. */
module LoginPage {
  import opened Wrappers
  import UploadPage
  import Gemini

  const MismatchMessage := "Passwords do not match"
  const NameMessage := "Please enter your first and last name"
  const FieldsMessage := "Please fill in all fields"
  const FallbackMessage := "An error occurred during authentication"

  datatype Form = Form(
    isLogin: bool,
    firstName: string, lastName: string,
    email: string, password: string, confirmPassword: string,
    error: string)

  /** The call `handleEmailAuth` makes once its checks pass. */
  datatype AuthRequest =
    | SignIn(email: string, password: string)
    | SignUp(email: string, password: string, displayName: string, firstName: string, lastName: string)

  /** The checks of `handleEmailAuth`, in order: in sign-up mode the
      confirmation must match, then both names must be given; in either
      mode the email and the password must be given. */
  function EmailAuth(f: Form): (r: Result<AuthRequest>)
    ensures !f.isLogin && f.password != f.confirmPassword ==> r == Err(MismatchMessage)
    ensures !f.isLogin && f.password == f.confirmPassword && (f.firstName == "" || f.lastName == "") ==> r == Err(NameMessage)
    ensures r == Err(FieldsMessage) <==>
      (f.isLogin || (f.password == f.confirmPassword && f.firstName != "" && f.lastName != ""))
      && (f.email == "" || f.password == "")
    ensures r.Ok? <==>
      (f.isLogin || (f.password == f.confirmPassword && f.firstName != "" && f.lastName != ""))
      && f.email != "" && f.password != ""
    ensures r.Ok? && f.isLogin ==> r.value == SignIn(f.email, f.password)
    ensures r.Ok? && !f.isLogin ==>
      r.value == SignUp(f.email, f.password, f.firstName + " " + f.lastName, f.firstName, f.lastName)
  {
    assert MismatchMessage[1] != FieldsMessage[1] && MismatchMessage[1] != NameMessage[1] && NameMessage[7] != FieldsMessage[7];
    if !f.isLogin && f.password != f.confirmPassword then Err(MismatchMessage)
    else if !f.isLogin && (f.firstName == "" || f.lastName == "") then Err(NameMessage)
    else if f.email == "" || f.password == "" then Err(FieldsMessage)
    else if f.isLogin then Ok(SignIn(f.email, f.password))
    else Ok(SignUp(f.email, f.password, f.firstName + " " + f.lastName, f.firstName, f.lastName))
  }

  /** In login mode the names and the confirmation play no part. */
  lemma LoginIgnoresSignUpFields(f: Form, first: string, last: string, confirm: string)
    requires f.isLogin
    ensures EmailAuth(f) == EmailAuth(f.(firstName := first, lastName := last, confirmPassword := confirm))
  {
  }

  /** The message shown when the service rejects the request:
      `err.message || "An error occurred during authentication"`. */
  function AuthErrorText(message: string): (r: string)
    ensures r != []
    ensures message != [] ==> r == message
  {
    if message != [] then message else FallbackMessage
  }

  /** `toggleLoginMode`: the mode flips and the error is cleared; leaving
      login mode also clears the names. */
  function ToggleLoginMode(f: Form): (r: Form)
    ensures r.isLogin == !f.isLogin && r.error == ""
    ensures f.isLogin ==> r.firstName == "" && r.lastName == ""
    ensures !f.isLogin ==> r.firstName == f.firstName && r.lastName == f.lastName
    ensures r.email == f.email && r.password == f.password && r.confirmPassword == f.confirmPassword
  {
    if f.isLogin then f.(isLogin := false, error := "", firstName := "", lastName := "")
    else f.(isLogin := true, error := "")
  }

  /** Switching there and back returns to the same mode with the
      credentials kept and the names cleared, whichever mode it started in. */
  lemma ToggleTwice(f: Form)
    ensures var r := ToggleLoginMode(ToggleLoginMode(f));
      r == f.(error := "", firstName := "", lastName := "")
  {
  }

  /** `handleProviderAuth`: only "google" is supported; `signIn` is the
      popup's outcome, an error message when it fails. */
  function ProviderAuth(provider: string, signIn: Option<string>): (r: Option<string>)
    ensures provider != "google" ==> r == Some(provider + " authentication failed: Unsupported provider: " + provider)
    ensures provider == "google" ==> (r.None? <==> signIn.None?)
    ensures provider == "google" && signIn.Some? ==> r == Some(provider + " authentication failed: " + signIn.value)
  {
    if provider == "google" then
      match signIn
      case None => None
      case Some(message) => Some(provider + " authentication failed: " + message)
    else Some(provider + " authentication failed: Unsupported provider: " + provider)
  }

  /** The guest banner: shown only below two free plays, with the number
      left and the noun in the singular when exactly one is left. */
  datatype Banner = Banner(remaining: int, noun: string)

  function GuestBanner(freePlaysUsed: int): (r: Option<Banner>)
    ensures r.Some? <==> freePlaysUsed < UploadPage.FreePlays
    ensures r.Some? ==> r.value.remaining == UploadPage.FreePlays - freePlaysUsed && r.value.remaining > 0
    ensures r.Some? ==> (r.value.noun == "quiz" <==> r.value.remaining == 1)
  {
    if freePlaysUsed < 2 then
      Some(Banner(2 - freePlaysUsed, if freePlaysUsed == 1 then "quiz" else "quizzes"))
    else None
  }

  /** The banner is shown exactly when the upload page would still let a
      guest generate a quiz. */
  lemma BannerMatchesGate(freePlaysUsed: int)
    ensures GuestBanner(freePlaysUsed).Some? <==> !UploadPage.GuestBlocked(false, freePlaysUsed)
  {
  }

  /** "Continue as guest" as written: it spends a free play before the
      guest has generated anything, and goes to the upload page. */
  function ContinueAsGuestAsWritten(freePlaysUsed: int): (r: (string, int))
    ensures r.0 == "/upload" && r.1 == freePlaysUsed + 1
  {
    ("/upload", freePlaysUsed + 1)
  }

  /** "Continue as guest" as evidently intended: it only goes to the
      upload page; the upload page counts the play when a quiz is made. */
  function ContinueAsGuest(freePlaysUsed: int): (r: (string, int))
    ensures r.0 == "/upload" && r.1 == freePlaysUsed
  {
    ("/upload", freePlaysUsed)
  }

  /** A new guest is told two quizzes remain, but as written the button
      spends one, the first quiz spends the second, and the next attempt
      is turned away: one quiz, not two. */
  lemma AsWrittenGuestGetsOneQuiz(
    tab: UploadPage.Tab, file: Option<string>, text: string, parsedFile: string,
    difficulty: Gemini.Difficulty, questionCount: int,
    generate: string -> Result<Gemini.GeneratedQuiz>, quizId: string, nowIso: string)
    ensures GuestBanner(0) == Some(Banner(2, "quizzes"))
    ensures var used := ContinueAsGuestAsWritten(0).1;
      var first := UploadPage.Submit(None, used, tab, file, text, parsedFile, difficulty, questionCount, generate, quizId, nowIso);
      first.SavedForGuest? ==>
        UploadPage.Submit(None, first.freePlaysUsed, tab, file, text, parsedFile, difficulty, questionCount, generate, quizId, nowIso)
        == UploadPage.Alerted(UploadPage.GuestLimitMessage, 2)
  {
  }

  /** With the corrected button a new guest who generates a quiz is still
      allowed a second one, as the banner promised. */
  lemma GuestGetsTwoQuizzes(
    tab: UploadPage.Tab, file: Option<string>, text: string, parsedFile: string,
    difficulty: Gemini.Difficulty, questionCount: int,
    generate: string -> Result<Gemini.GeneratedQuiz>, quizId: string, nowIso: string)
    ensures var used := ContinueAsGuest(0).1;
      var first := UploadPage.Submit(None, used, tab, file, text, parsedFile, difficulty, questionCount, generate, quizId, nowIso);
      first.SavedForGuest? ==>
        && first.freePlaysUsed == 1
        && !UploadPage.GuestBlocked(false, first.freePlaysUsed)
        && GuestBanner(first.freePlaysUsed) == Some(Banner(1, "quiz"))
  {
  }
}
