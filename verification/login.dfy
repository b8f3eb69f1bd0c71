/** The login page (app/login/page.js): the sign-up password checks and the
    component state (`tab`, the three inputs, `error`, `message`, `loading`)
    that the two form handlers and the tab buttons update. The provider's
    answer is a parameter: the awaited reply, or the exception the call threw. */
module Login {
  import opened JsValues

  const MinPasswordLength: nat := 6

  const MismatchMessage: string := "Passwords do not match."
  const TooShortMessage: string := "Password must be at least 6 characters."
  const ConfirmationMessage: string := "Check your email for a confirmation link, then sign in."

  datatype Tab = SignInTab | SignUpTab

  /** What is sent to the auth provider. */
  datatype Credentials = Credentials(email: string, password: string)

  /** The `error` of the provider's reply: none, or an error with its message. */
  datatype AuthReply = Accepted | Refused(message: string)

  /** The checks before sign-up, in order; None when both pass. */
  function SignUpProblem(password: string, confirmation: string): (problem: Option<string>)
    ensures problem.None? <==> password == confirmation && |password| >= MinPasswordLength
    ensures password != confirmation ==> problem == Some(MismatchMessage)
    ensures password == confirmation && |password| < MinPasswordLength ==> problem == Some(TooShortMessage)
  {
    if password != confirmation then Some(MismatchMessage)
    else if |password| < MinPasswordLength then Some(TooShortMessage)
    else None
  }

  /** The mismatch is reported even when the password is also too short, and
      six characters are enough. */
  lemma SignUpCheckBoundaries()
    ensures SignUpProblem("abc", "abd") == Some(MismatchMessage)
    ensures SignUpProblem("secret", "secret") == None
    ensures SignUpProblem("short", "short") == Some(TooShortMessage)
  {
  }

  /** One call of a state setter. */
  datatype Write =
    | TabSet(tab: Tab)
    | ErrorSet(error: string)
    | MessageSet(message: string)
    | LoadingSet(loading: bool)

  /** The `LoginPage` component's state. `writes` records the setter calls,
      in order. */
  class LoginPage {
    var tab: Tab
    var email: string
    var password: string
    var confirmPassword: string
    var error: string
    var message: string
    var loading: bool
    ghost var writes: seq<Write>

    /** The page never shows an error and the confirmation together, and the
        confirmation only appears on the sign-up tab. */
    predicate Valid()
      reads this
    {
      (error == "" || message == "") && (message != "" ==> tab == SignUpTab)
    }

    constructor ()
      ensures Valid()
      ensures tab == SignInTab && email == "" && password == "" && confirmPassword == ""
      ensures error == "" && message == "" && !loading && writes == []
    {
      tab, email, password, confirmPassword := SignInTab, "", "", "";
      error, message, loading := "", "", false;
      writes := [];
    }

    method SetError(e: string)
      modifies this
      ensures error == e && writes == old(writes) + [ErrorSet(e)]
      ensures tab == old(tab) && message == old(message) && loading == old(loading)
      ensures email == old(email) && password == old(password) && confirmPassword == old(confirmPassword)
    {
      error := e;
      writes := writes + [ErrorSet(e)];
    }

    method SetMessage(m: string)
      modifies this
      ensures message == m && writes == old(writes) + [MessageSet(m)]
      ensures tab == old(tab) && error == old(error) && loading == old(loading)
      ensures email == old(email) && password == old(password) && confirmPassword == old(confirmPassword)
    {
      message := m;
      writes := writes + [MessageSet(m)];
    }

    method SetLoading(b: bool)
      modifies this
      ensures loading == b && writes == old(writes) + [LoadingSet(b)]
      ensures tab == old(tab) && error == old(error) && message == old(message)
      ensures email == old(email) && password == old(password) && confirmPassword == old(confirmPassword)
    {
      loading := b;
      writes := writes + [LoadingSet(b)];
    }

    method SetTab(t: Tab)
      modifies this
      ensures tab == t && writes == old(writes) + [TabSet(t)]
      ensures error == old(error) && message == old(message) && loading == old(loading)
      ensures email == old(email) && password == old(password) && confirmPassword == old(confirmPassword)
    {
      tab := t;
      writes := writes + [TabSet(t)];
    }

    /** The inputs' change handlers. */
    method EditFields(newEmail: string, newPassword: string, newConfirmation: string)
      modifies this
      requires Valid()
      ensures Valid()
      ensures email == newEmail && password == newPassword && confirmPassword == newConfirmation
      ensures tab == old(tab) && error == old(error) && message == old(message)
      ensures loading == old(loading) && writes == old(writes)
    {
      email, password, confirmPassword := newEmail, newPassword, newConfirmation;
    }

    /** A tab button: switches the tab and clears both banners. */
    method SelectTab(t: Tab)
      modifies this
      requires Valid()
      ensures Valid()
      ensures tab == t && error == "" && message == ""
      ensures writes == old(writes) + [TabSet(t), ErrorSet(""), MessageSet("")]
      ensures loading == old(loading)
      ensures email == old(email) && password == old(password) && confirmPassword == old(confirmPassword)
    {
      SetTab(t);
      SetError("");
      SetMessage("");
    }

    /** `handleSignIn`, submitted from the sign-in form. `sent` is what goes to
        the provider; `navigated` is the move to the home page. */
    method HandleSignIn(reply: Awaited<AuthReply>) returns (sent: Credentials, navigated: bool)
      modifies this
      requires Valid() && tab == SignInTab
      ensures Valid()
      ensures sent == Credentials(email, password)
      ensures navigated <==> reply == Resolved(Accepted)
      ensures reply.Resolved? && reply.value.Refused? ==>
                error == reply.value.message && !loading
                && writes == old(writes) + [ErrorSet(""), LoadingSet(true), ErrorSet(reply.value.message), LoadingSet(false)]
      // on success, and when the call itself throws, the form stays busy
      ensures !(reply.Resolved? && reply.value.Refused?) ==>
                error == "" && loading && writes == old(writes) + [ErrorSet(""), LoadingSet(true)]
      ensures tab == old(tab) && message == old(message)
      ensures email == old(email) && password == old(password) && confirmPassword == old(confirmPassword)
    {
      SetError("");
      SetLoading(true);
      sent := Credentials(email, password);
      navigated := false;
      match reply {
        case Threw(_) =>
        case Resolved(Refused(m)) =>
          SetError(m);
          SetLoading(false);
        case Resolved(Accepted) =>
          navigated := true;
      }
    }

    /** `handleSignUp`, submitted from the sign-up form. `sent` is what goes
        to the provider, None when a check stops the handler first. */
    method HandleSignUp(reply: Awaited<AuthReply>) returns (sent: Option<Credentials>)
      modifies this
      requires Valid() && tab == SignUpTab
      ensures Valid()
      ensures sent.Some? <==> SignUpProblem(password, confirmPassword).None?
      ensures sent.Some? ==> sent.value == Credentials(email, password)
      // a failed check: its message, no provider call, `loading` untouched
      ensures SignUpProblem(password, confirmPassword).Some? ==>
                var problem := SignUpProblem(password, confirmPassword).value;
                error == problem && message == "" && loading == old(loading)
                && writes == old(writes) + [ErrorSet(""), MessageSet(""), ErrorSet(problem)]
      ensures sent.Some? && reply == Resolved(Accepted) ==>
                error == "" && message == ConfirmationMessage && !loading
                && writes == old(writes) + [ErrorSet(""), MessageSet(""), LoadingSet(true),
                                            MessageSet(ConfirmationMessage), LoadingSet(false)]
      ensures sent.Some? && reply.Resolved? && reply.value.Refused? ==>
                error == reply.value.message && message == "" && !loading
                && writes == old(writes) + [ErrorSet(""), MessageSet(""), LoadingSet(true),
                                            ErrorSet(reply.value.message), LoadingSet(false)]
      ensures sent.Some? && reply.Threw? ==>
                error == "" && message == "" && loading
                && writes == old(writes) + [ErrorSet(""), MessageSet(""), LoadingSet(true)]
      ensures tab == old(tab)
      ensures email == old(email) && password == old(password) && confirmPassword == old(confirmPassword)
    {
      SetError("");
      SetMessage("");
      sent := None;
      if password != confirmPassword {
        SetError(MismatchMessage);
        return;
      }
      if |password| < MinPasswordLength {
        SetError(TooShortMessage);
        return;
      }
      SetLoading(true);
      sent := Some(Credentials(email, password));
      match reply {
        case Threw(_) =>
        case Resolved(Refused(m)) =>
          SetError(m);
          SetLoading(false);
        case Resolved(Accepted) =>
          SetMessage(ConfirmationMessage);
          SetLoading(false);
      }
    }
  }
}
