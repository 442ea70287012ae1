/**
 * The sign-in page (static/js/login.js): the switch between logging in and
 * signing up, the check of the two fields before anything is sent, the
 * requests a submission makes, and the state of the submit button.
 * The two fetches are replaced by parameters giving the server's answers.
 */
module Login {
  import opened Wrappers
  import opened Text

  const SignUpLabel := "Sign Up"
  const LoginLabel := "Login"
  const LoadingLabel := "Loading..."
  const MissingFields := "Please enter both email and password"
  const RegistrationFailed := "Registration failed"
  const LoginFailed := "Login failed"
  const LoginFailedAfterRegistration := "Login failed after registration"
  const HaveAccount := "Already have an account?"
  const NoAccount := "Don't have an account?"

  /** The fallback message when the login answer carries no error text. */
  function LoginFallback(isSignup: bool): string {
    if isSignup then LoginFailedAfterRegistration else LoginFailed
  }

  /** The label of the submit button and of the form title in a mode. */
  function ModeLabel(isSignup: bool): (caption: string)
    ensures caption == SignUpLabel <==> isSignup
  {
    if isSignup then SignUpLabel else LoginLabel
  }

  /** The request bodies a submission sends, in order. */
  datatype Request =
    | Register(username: string, email: string, password: string, fullName: string)
    | LogIn(username: string, password: string)

  /** The registration body: the username and the full name are the part of the email before its first '@'. */
  function RegisterRequest(email: string, password: string): (r: Request)
    ensures r.Register? && r.email == email && r.password == password
    ensures r.username == r.fullName
    ensures |r.username| <= |email| && r.username == email[..|r.username|] && '@' !in r.username
    ensures |r.username| < |email| ==> email[|r.username|] == '@'
  {
    var prefix := BeforeFirst(email, '@');
    Register(prefix, email, password, prefix)
  }

  /** With no '@' in the email, the whole email is the username. */
  lemma RegisterWithoutAt(email: string, password: string)
    requires '@' !in email
    ensures RegisterRequest(email, password).username == email
  {
  }

  /** The username is the same for every email that shares the part before '@'. */
  lemma RegisterUsesLocalPart(local: string, domain: string, password: string)
    requires '@' !in local
    ensures RegisterRequest(local + "@" + domain, password).username == local
  {
    var email := local + "@" + domain;
    var u := RegisterRequest(email, password).username;
    assert email[|local|] == '@';
    assert email[..|local|] == local;
  }

  /** A server answer: None when the response is ok, else the error field of its body ("" when absent). */
  type Answer = Option<string>

  /** error.error || fallback */
  function ErrorText(field: string, fallback: string): (msg: string)
    ensures field != "" ==> msg == field
    ensures field == "" ==> msg == fallback
  {
    if field == "" then fallback else field
  }

  /** What a submission sends, the error it leaves on the form, and whether it moves on to /roadmaps. */
  datatype Outcome = Outcome(sent: seq<Request>, error: Option<string>, redirect: bool)

  /**
   * The submission of a trimmed email and a password in a mode, given the
   * server's answers. Nothing is sent exactly when the email or the password
   * is empty; a sign-up registers first, under the part of the email before
   * '@', and every login uses the email as username; the page moves on
   * exactly when both answers are ok, and otherwise an error is left.
   */
  function Submission(isSignup: bool, email: string, password: string,
                      registerAnswer: Answer, loginAnswer: Answer): (o: Outcome)
    ensures o.sent == [] <==> email == "" || password == ""
    ensures o.sent == [] ==> o.error == Some(MissingFields) && !o.redirect
    ensures o.sent != [] && isSignup ==> o.sent[0] == RegisterRequest(email, password)
    ensures o.sent != [] && !isSignup ==> o.sent == [LogIn(email, password)]
    ensures forall i :: 0 <= i < |o.sent| && o.sent[i].LogIn? ==> o.sent[i] == LogIn(email, password)
    ensures o.redirect <==> o.error.None?
    ensures o.redirect <==> email != "" && password != "" && (!isSignup || registerAnswer.None?) && loginAnswer.None?
  {
    if email == "" || password == "" then Outcome([], Some(MissingFields), false)
    else if isSignup && registerAnswer.Some? then
      Outcome([RegisterRequest(email, password)], Some(ErrorText(registerAnswer.value, RegistrationFailed)), false)
    else
      var login := [LogIn(email, password)];
      var sent := if isSignup then [RegisterRequest(email, password)] + login else login;
      if loginAnswer.Some? then
        Outcome(sent, Some(ErrorText(loginAnswer.value,
                                     LoginFallback(isSignup))), false)
      else Outcome(sent, None, true)
  }

  class LoginForm {
    var isSignup: bool
    var submitLabel: string
    var formTitle: string
    var toggleText: string
    var toggleLink: string
    var submitDisabled: bool
    var error: Option<string>
    var redirected: bool

    /** Outside a submission the button is enabled and the labels follow the mode. */
    ghost predicate Valid()
      reads this
    {
      && submitLabel == ModeLabel(isSignup)
      && formTitle == ModeLabel(isSignup)
      && toggleText == (if isSignup then HaveAccount else NoAccount)
      && toggleLink == (if isSignup then "Login" else "Sign up")
      && !submitDisabled
    }

    constructor ()
      ensures Valid() && !isSignup && error.None? && !redirected
    {
      isSignup := false;
      submitLabel := LoginLabel;
      formTitle := LoginLabel;
      toggleText := NoAccount;
      toggleLink := "Sign up";
      submitDisabled := false;
      error := None;
      redirected := false;
    }

    /** The "Sign up" / "Login" link: flips the mode, relabels the form and clears the error. */
    method ToggleMode()
      requires Valid()
      modifies this
      ensures Valid()
      ensures isSignup == !old(isSignup) && error.None?
      ensures submitLabel == SignUpLabel <==> isSignup
      ensures redirected == old(redirected)
    {
      isSignup := !isSignup;
      submitLabel := ModeLabel(isSignup);
      formTitle := ModeLabel(isSignup);
      toggleText := if isSignup then HaveAccount else NoAccount;
      toggleLink := if isSignup then "Login" else "Sign up";
      error := None;
    }

    /** showLoading: the button is disabled while loading and shows the mode's label otherwise. */
    method ShowLoading(show: bool)
      modifies this
      ensures submitDisabled == show
      ensures submitLabel == if show then LoadingLabel else ModeLabel(isSignup)
      ensures isSignup == old(isSignup) && formTitle == old(formTitle)
      ensures toggleText == old(toggleText) && toggleLink == old(toggleLink)
      ensures error == old(error) && redirected == old(redirected)
    {
      submitDisabled := show;
      submitLabel := if show then LoadingLabel else ModeLabel(isSignup);
    }

    /**
     * The form's submit handler: the error is cleared, the email trimmed and
     * the password taken as typed; the requests and the final error and
     * redirect are those of Submission, and the button is restored afterwards.
     */
    method Submit(emailField: string, password: string, registerAnswer: Answer, loginAnswer: Answer)
      returns (sent: seq<Request>)
      requires Valid()
      modifies this
      ensures Valid() && isSignup == old(isSignup)
      ensures var o := Submission(old(isSignup), Trim(emailField), password, registerAnswer, loginAnswer);
              sent == o.sent && error == o.error && redirected == (old(redirected) || o.redirect)
    {
      var email := Trim(emailField);
      sent := SubmitFields(email, password, registerAnswer, loginAnswer);
    }

    /** The handler once the email is trimmed: the field check, then the requests with the button showing "Loading...". */
    method SubmitFields(email: string, password: string, registerAnswer: Answer, loginAnswer: Answer)
      returns (sent: seq<Request>)
      requires Valid()
      modifies this
      ensures Valid() && isSignup == old(isSignup)
      ensures var o := Submission(old(isSignup), email, password, registerAnswer, loginAnswer);
              sent == o.sent && error == o.error && redirected == (old(redirected) || o.redirect)
    {
      error := None;
      if email == "" || password == "" {
        error := Some(MissingFields);
        return [];
      }
      submitDisabled, submitLabel := true, LoadingLabel;
      sent := Send(email, password, registerAnswer, loginAnswer);
      submitDisabled, submitLabel := false, ModeLabel(isSignup);
    }

    /** The requests of a submission that passed the field check, while the button shows "Loading...". */
    method Send(email: string, password: string, registerAnswer: Answer, loginAnswer: Answer)
      returns (sent: seq<Request>)
      requires email != "" && password != ""
      modifies `error, `redirected
      ensures var o := Submission(isSignup, email, password, registerAnswer, loginAnswer);
              sent == o.sent && error == o.error && redirected == (old(redirected) || o.redirect)
    {
      var register := [RegisterRequest(email, password)];
      var login := [LogIn(email, password)];
      if isSignup && registerAnswer.Some? {
        error := Some(ErrorText(registerAnswer.value, RegistrationFailed));
        return register;
      }
      sent := if isSignup then register + login else login;
      if loginAnswer.Some? {
        error := Some(ErrorText(loginAnswer.value, LoginFallback(isSignup)));
      } else {
        error := None;
        redirected := true;
      }
    }
  }

  /** Two toggles from any consistent form give back the same mode and labels. */
  method ToggleTwice(form: LoginForm)
    requires form.Valid()
    modifies form
    ensures form.Valid() && form.isSignup == old(form.isSignup)
    ensures form.submitLabel == old(form.submitLabel) && form.formTitle == old(form.formTitle)
    ensures form.toggleText == old(form.toggleText) && form.toggleLink == old(form.toggleLink)
  {
    form.ToggleMode();
    form.ToggleMode();
  }

  /** A whitespace-only email is refused just like an empty one. */
  lemma BlankEmailRefused(emailField: string)
    requires AllSpace(emailField)
    ensures Trim(emailField) == ""
  {
    TrimEmptyIffAllSpace(emailField);
  }
}
