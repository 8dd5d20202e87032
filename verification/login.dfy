/** The login form: email and password inputs, the inline error and the
    redirect flag that hands the email on to the project list. */
module Login {
  import opened Wrappers
  import opened Api

  /** `error` is `None` when the server's error reply had no message. */
  datatype LoginState = LoginState(email: string, password: string, redirect: bool, error: Option<string>)

  /** The named inputs of the form. */
  datatype Field = Email | Password

  function Initial(): (s: LoginState)
    ensures !s.redirect && s.email == "" && s.password == "" && !ShowsError(s)
  {
    LoginState("", "", false, Some(""))
  }

  /** The value an input currently shows. */
  function Value(s: LoginState, f: Field): string {
    match f
    case Email => s.email
    case Password => s.password
  }

  /** The error text is rendered (a non-empty string). */
  predicate ShowsError(s: LoginState) {
    s.error.Some? && s.error.value != ""
  }

  /** Typing into an input sets the field it names and nothing else. */
  function HandleInputChange(s: LoginState, name: Field, value: string): (r: LoginState)
    ensures Value(r, name) == value
    ensures forall f :: f != name ==> Value(r, f) == Value(s, f)
    ensures r.redirect == s.redirect && r.error == s.error
  {
    match name
    case Email => s.(email := value)
    case Password => s.(password := value)
  }

  /** Submitting posts the credentials. A reported error shows the server's
      message and stays; any other reply redirects (the error is left as it
      was); a thrown call shows the generic message and stays. */
  function HandleLogin(s: LoginState, o: ServerOutcome<()>): (r: Step<LoginState>)
    ensures r.requests == [LoginRequest(s.email, s.password)]
    ensures r.state.email == s.email && r.state.password == s.password
    ensures r.state.redirect <==> s.redirect || (o.Delivered? && o.reply.status != Some("error"))
    ensures IsReportedError(o) ==> r.state.error == o.reply.message
    ensures o.TransportError? ==> r.state.error == Some(GenericAuthError)
    ensures o.Delivered? && !IsReportedError(o) ==> r.state.error == s.error
  {
    var req := [LoginRequest(s.email, s.password)];
    match ClassifyAuth(o)
    case Redirect => Step(s.(redirect := true), req)
    case ShowError(m) => Step(s.(error := m), req)
  }

  /** Once redirected, the form navigates to the dashboard carrying the
      entered email as the username. */
  function Navigation(s: LoginState): (n: Option<Navigation>)
    ensures n.Some? <==> s.redirect
    ensures n.Some? ==> n.value.path == "/dashboard" && n.value.username == Some(s.email)
  {
    if s.redirect then Some(Navigate("/dashboard", Some(s.email))) else None
  }
}
