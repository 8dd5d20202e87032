/** How the views hand over to each other: the login form's navigation
    feeds the project list, and a selected project feeds the detail view. */
module Flow {
  import opened Wrappers
  import opened Api
  import Login
  import SignUp
  import Dashboard
  import ProjectView

  /** A successful login lands on the project list as the entered email,
      which fetches that user's projects, unless the email is empty (then the
      viewer is the guest) or is literally `Guest`. */
  lemma LoginHandsOverIdentity(s: Login.LoginState, o: ServerOutcome<()>, fetch: ServerOutcome<seq<Project>>)
    requires o.Delivered? && o.reply.status != Some("error")
    ensures var after := Login.HandleLogin(s, o).state;
      var nav := Login.Navigation(after);
      && nav.Some? && nav.value.path == "/dashboard"
      && var list := Dashboard.Mount(nav.value.username, fetch);
         && (s.email != "" ==> list.state.username == s.email)
         && (s.email == "" ==> list.state.username == Dashboard.Guest)
         && (list.requests == [GetProjects(s.email)] <==> s.email != "" && s.email != Dashboard.Guest)
  {
  }

  /** A failed login never navigates. */
  lemma FailedLoginStays(s: Login.LoginState, o: ServerOutcome<()>)
    requires !s.redirect && (o.TransportError? || IsReportedError(o))
    ensures Login.Navigation(Login.HandleLogin(s, o).state).None?
  {
  }

  /** A successful sign-up lands on the login form and carries no identity:
      the login form starts afresh and the user signs in from there. */
  lemma SignUpCarriesNoIdentity(s: SignUp.SignUpState, o: ServerOutcome<()>)
    requires s.password == s.confirmPassword && o.Delivered? && o.reply.status != Some("error")
    ensures var nav := SignUp.Navigation(SignUp.HandleSignUp(s, o).state);
      nav == Some(Navigate("/login", None))
  {
  }

  /** Opening a project shows its detail view for the same user and title,
      whose first call fetches exactly that project's todos. */
  lemma ViewOpensSelectedProject(s: Dashboard.DashboardState, p: Project, o: ServerOutcome<seq<Todo>>)
    ensures var sel := Dashboard.ViewProject(s, p).selected;
      && sel == Some(p)
      && var v := ProjectView.Mount(s.username, sel.value, o);
         && v.state.title == p.title
         && v.requests == [GetTodos(s.username, p.title)]
  {
  }
}
