/** The sign-up form: email, password and confirmation inputs, a local
    password-match gate, the inline error and the redirect to the login form. */
module SignUp {
  import opened Wrappers
  import opened Api

  /** `error` is `None` when the server's error reply had no message. */
  datatype SignUpState = SignUpState(
    email: string, password: string, confirmPassword: string,
    redirect: bool, error: Option<string>)

  /** The named inputs of the form. */
  datatype Field = Email | Password | ConfirmPassword

  function Initial(): (s: SignUpState)
    ensures !s.redirect && s.email == "" && s.password == "" && s.confirmPassword == ""
    ensures s.error == Some("")
  {
    SignUpState("", "", "", false, Some(""))
  }

  /** The value an input currently shows. */
  function Value(s: SignUpState, f: Field): string {
    match f
    case Email => s.email
    case Password => s.password
    case ConfirmPassword => s.confirmPassword
  }

  /** Typing into an input sets the field it names and nothing else. */
  function HandleInputChange(s: SignUpState, name: Field, value: string): (r: SignUpState)
    ensures Value(r, name) == value
    ensures forall f :: f != name ==> Value(r, f) == Value(s, f)
    ensures r.redirect == s.redirect && r.error == s.error
  {
    match name
    case Email => s.(email := value)
    case Password => s.(password := value)
    case ConfirmPassword => s.(confirmPassword := value)
  }

  /** Submitting. Mismatched passwords are refused locally (only alerted):
      no call and no state change. Otherwise email and password are posted
      and the reply is read as by the login form. */
  function HandleSignUp(s: SignUpState, o: ServerOutcome<()>): (r: Step<SignUpState>)
    ensures s.password != s.confirmPassword <==> r.requests == []
    ensures s.password != s.confirmPassword ==> r.state == s
    ensures r.requests != [] ==> r.requests == [SignupRequest(s.email, s.password)]
    ensures r.state.(redirect := s.redirect, error := s.error) == s
    ensures r.state.redirect <==> s.redirect || (r.requests != [] && o.Delivered? && o.reply.status != Some("error"))
    ensures r.requests != [] && IsReportedError(o) ==> r.state.error == o.reply.message
    ensures r.requests != [] && o.TransportError? ==> r.state.error == Some(GenericAuthError)
    ensures r.requests == [] || (o.Delivered? && !IsReportedError(o)) ==> r.state.error == s.error
  {
    if s.password != s.confirmPassword then Step(s, [])
    else
      var req := [SignupRequest(s.email, s.password)];
      match ClassifyAuth(o)
      case Redirect => Step(s.(redirect := true), req)
      case ShowError(m) => Step(s.(error := m), req)
  }

  /** Once redirected, the form navigates to the login form, carrying no
      username. */
  function Navigation(s: SignUpState): (n: Option<Navigation>)
    ensures n.Some? <==> s.redirect
    ensures n.Some? ==> n.value.path == "/login" && n.value.username.None?
  {
    if s.redirect then Some(Navigate("/login", None)) else None
  }
}
