/** The project list view: the signed-in user's projects, the new-title
    input, the inline error and the selected project. Every handler is a pure
    transition that receives the outcome of the call it makes. */
module Dashboard {
  import opened Wrappers
  import opened Text
  import opened Seqs
  import opened Api

  const Guest := "Guest"
  const EmptyTitleError := "Project title cannot be empty."
  const DuplicateTitleError := "Project title already exists."
  const CreateFallback := "Failed to create project in the database."
  const ConnectError := "Error: Unable to connect to the server."
  const FetchFallback := "Failed to fetch projects"
  const FetchTransportError := "Error fetching projects"

  datatype DashboardState = DashboardState(
    username: string,
    projects: seq<Project>,
    newProjectTitle: string,
    selected: Option<Project>,
    error: string,
    loading: bool)

  /** The username carried by navigation, with `Guest` standing in for an
      absent or empty one. */
  function ResolveUsername(nav: Option<string>): (u: string)
    ensures u != ""
    ensures nav.Some? && nav.value != "" ==> u == nav.value
    ensures u == Guest <==> nav.None? || nav == Some("") || nav == Some(Guest)
  {
    if nav.Some? && nav.value != "" then nav.value else Guest
  }

  /** The list view before anything is fetched or typed. */
  function Initial(username: string): (s: DashboardState)
    ensures s.username == username && s.projects == [] && s.newProjectTitle == ""
    ensures s.selected.None? && s.error == "" && !s.loading
  {
    DashboardState(username, [], "", None, "", false)
  }

  /** Some project in the list has exactly this title (case-sensitive; the
      listed titles are compared as stored). */
  predicate TitleTaken(ps: seq<Project>, title: string) {
    exists i :: 0 <= i < |ps| && ps[i].title == title
  }

  /** No two listed projects share a title. */
  predicate DistinctTitles(ps: seq<Project>) {
    forall i, j :: 0 <= i < j < |ps| ==> ps[i].title != ps[j].title
  }

  /** Keeps the projects whose id differs from `id` (`project.id !== id`). */
  function OtherId(id: Option<int>): Project -> bool {
    (p: Project) => p.id != id
  }

  /** Loads the user's projects: a success replaces the list wholesale, any
      failure keeps the previous list and reports an error; loading ends
      either way. */
  function FetchProjects(s: DashboardState, o: ServerOutcome<seq<Project>>): (r: Step<DashboardState>)
    ensures r.requests == [GetProjects(s.username)]
    ensures !r.state.loading
    ensures r.state.(projects := s.projects, error := s.error, loading := s.loading) == s
    ensures IsSuccess(o) ==> r.state.projects == o.reply.data && r.state.error == s.error
    ensures !IsSuccess(o) ==> r.state.projects == s.projects && r.state.error != ""
    ensures o.Delivered? && !IsSuccess(o) ==> r.state.error == MessageOr(o.reply.message, FetchFallback)
    ensures o.TransportError? ==> r.state.error == FetchTransportError
  {
    var req := [GetProjects(s.username)];
    match o
    case TransportError =>
      Step(s.(error := FetchTransportError, loading := false), req)
    case Delivered(reply) =>
      if reply.status == Some("success") then
        Step(s.(projects := reply.data, loading := false), req)
      else
        Step(s.(error := MessageOr(reply.message, FetchFallback), loading := false), req)
  }

  /** Mounting the view: resolve the username and fetch the projects unless
      the viewer is the guest. */
  function Mount(nav: Option<string>, fetch: ServerOutcome<seq<Project>>): (r: Step<DashboardState>)
    ensures r.state.username == ResolveUsername(nav)
    ensures r.state.selected.None? && r.state.newProjectTitle == ""
    ensures r.requests == [] <==> r.state.username == Guest
    ensures r.requests != [] ==> r.requests == [GetProjects(r.state.username)]
    ensures r.state.username == Guest ==> r.state.projects == [] && r.state.error == ""
    ensures r.state.username != Guest && IsSuccess(fetch) ==> r.state.projects == fetch.reply.data && r.state.error == ""
    ensures r.state.username != Guest && !IsSuccess(fetch) ==> r.state.projects == [] && r.state.error != ""
    ensures !r.state.loading
  {
    var s := Initial(ResolveUsername(nav));
    if s.username != Guest then FetchProjects(s, fetch) else Step(s, [])
  }

  /** Typing a title records it and clears the error; nothing else changes. */
  function HandleInputChange(s: DashboardState, value: string): (r: DashboardState)
    ensures r.newProjectTitle == value && r.error == ""
    ensures r.(newProjectTitle := s.newProjectTitle, error := s.error) == s
  {
    s.(newProjectTitle := value, error := "")
  }

  /** Creating a project. A blank title or a trimmed title already in the
      list is rejected locally with no call and only the error set. Otherwise
      the trimmed title is posted; a success appends one client-built record
      (id `now`, no todos) and clears input and error, a failure only sets the
      error. */
  function CreateProject(s: DashboardState, now: int, o: ServerOutcome<()>): (r: Step<DashboardState>)
    ensures r.requests == [] <==> IsBlank(s.newProjectTitle) || TitleTaken(s.projects, Trim(s.newProjectTitle))
    ensures IsBlank(s.newProjectTitle) ==> r.state == s.(error := EmptyTitleError)
    ensures !IsBlank(s.newProjectTitle) && TitleTaken(s.projects, Trim(s.newProjectTitle)) ==>
              r.state == s.(error := DuplicateTitleError)
    ensures r.requests != [] ==> r.requests == [AddProject(s.username, Trim(s.newProjectTitle))]
    ensures r.requests != [] && IsSuccess(o) ==>
              && |r.state.projects| == |s.projects| + 1
              && r.state.projects[..|s.projects|] == s.projects
              && r.state.projects[|s.projects|] == Project(Some(now), Trim(s.newProjectTitle), [])
              && r.state == s.(projects := r.state.projects, newProjectTitle := "", error := "")
    ensures r.requests != [] && o.Delivered? && !IsSuccess(o) ==>
              r.state == s.(error := MessageOr(o.reply.message, CreateFallback))
    ensures r.requests != [] && o.TransportError? ==> r.state == s.(error := ConnectError)
    ensures r.state.projects != s.projects ==> r.requests != [] && IsSuccess(o)
  {
    TrimEmptyIffBlank(s.newProjectTitle);
    var title := Trim(s.newProjectTitle);
    if title == "" then
      Step(s.(error := EmptyTitleError), [])
    else if TitleTaken(s.projects, title) then
      Step(s.(error := DuplicateTitleError), [])
    else
      var req := [AddProject(s.username, title)];
      match o
      case TransportError =>
        Step(s.(error := ConnectError), req)
      case Delivered(reply) =>
        if reply.status == Some("success") then
          var record := Project(Some(now), title, []);
          Step(s.(projects := s.projects + [record], newProjectTitle := "", error := ""), req)
        else
          Step(s.(error := MessageOr(reply.message, CreateFallback)), req)
  }

  /** Deleting a project posts its title; a success drops every project with
      the given id, and a failure (only alerted) changes nothing. */
  function DeleteProject(s: DashboardState, id: Option<int>, title: string, o: ServerOutcome<()>): (r: Step<DashboardState>)
    ensures r.requests == [Request.DeleteProject(s.username, title)]
    ensures r.state.(projects := s.projects) == s
    ensures !IsSuccess(o) ==> r.state == s
    ensures forall i :: 0 <= i < |r.state.projects| ==> r.state.projects[i] in s.projects
    ensures IsSuccess(o) ==> forall i :: 0 <= i < |r.state.projects| ==> r.state.projects[i].id != id
    ensures IsSuccess(o) ==> forall i :: 0 <= i < |s.projects| && s.projects[i].id != id ==> s.projects[i] in r.state.projects
  {
    var req := [Request.DeleteProject(s.username, title)];
    if IsSuccess(o) then Step(s.(projects := Filter(OtherId(id), s.projects)), req)
    else Step(s, req)
  }

  /** Opening a project selects it. */
  function ViewProject(s: DashboardState, p: Project): (r: DashboardState)
    ensures r.selected == Some(p) && r.(selected := s.selected) == s
  {
    s.(selected := Some(p))
  }

  /** Going back clears the selection. */
  function GoBack(s: DashboardState): (r: DashboardState)
    ensures r.selected.None? && r.(selected := s.selected) == s
  {
    s.(selected := None)
  }

  /** A successful delete leaves exactly the projects with a different id,
      each as often as before, in their original order. */
  lemma DeleteRemovesExactly(s: DashboardState, id: Option<int>, title: string, o: ServerOutcome<()>)
    requires IsSuccess(o)
    ensures var ps := DeleteProject(s, id, title, o).state.projects;
      && IsSubsequence(ps, s.projects)
      && forall p :: multiset(ps)[p] == if p.id != id then multiset(s.projects)[p] else 0
  {
    FilterIsSubsequence(OtherId(id), s.projects);
    FilterCount(OtherId(id), s.projects);
  }

  /** Deleting the same id twice is deleting it once. */
  lemma DeleteIdempotent(s: DashboardState, id: Option<int>, title: string, o: ServerOutcome<()>)
    requires IsSuccess(o)
    ensures var once := DeleteProject(s, id, title, o).state;
      DeleteProject(once, id, title, o).state == once
  {
    FilterIdempotent(OtherId(id), s.projects);
  }

  /** Creating a project never introduces a second project with the same
      title. */
  lemma CreateKeepsTitlesDistinct(s: DashboardState, now: int, o: ServerOutcome<()>)
    requires DistinctTitles(s.projects)
    ensures DistinctTitles(CreateProject(s, now, o).state.projects)
  {
  }

  /** The title of a created project is non-empty, already trimmed, and the
      very title the add request posted. */
  lemma CreatedTitleIsTrimmed(s: DashboardState, now: int, o: ServerOutcome<()>)
    requires !IsBlank(s.newProjectTitle) && !TitleTaken(s.projects, Trim(s.newProjectTitle))
    requires IsSuccess(o)
    ensures var ps := CreateProject(s, now, o).state.projects;
      && |ps| == |s.projects| + 1
      && ps[|s.projects|].title != ""
      && Trim(ps[|s.projects|].title) == ps[|s.projects|].title
      && ps[|s.projects|].title == CreateProject(s, now, o).requests[0].projectTitle
  {
  }

  /** Deleting keeps the titles distinct. */
  lemma DeleteKeepsTitlesDistinct(s: DashboardState, id: Option<int>, title: string, o: ServerOutcome<()>)
    requires DistinctTitles(s.projects)
    ensures DistinctTitles(DeleteProject(s, id, title, o).state.projects)
  {
    var ps := DeleteProject(s, id, title, o).state.projects;
    if IsSuccess(o) {
      FilterIsSubsequence(OtherId(id), s.projects);
      SubsequenceKeepsDistinct(ps, s.projects);
    }
  }

  lemma {:induction false} SubsequenceKeepsDistinct(a: seq<Project>, b: seq<Project>)
    requires IsSubsequence(a, b) && DistinctTitles(b)
    ensures DistinctTitles(a)
    decreases |b|
  {
    if a != [] && b != [] {
      if a[0] == b[0] && IsSubsequence(a[1..], b[1..]) {
        SubsequenceKeepsDistinct(a[1..], b[1..]);
        SubsequenceMembers(a[1..], b[1..]);
        forall j | 0 < j < |a|
          ensures a[0].title != a[j].title
        {
          assert a[1..][j - 1] == a[j];
          var k :| 0 <= k < |b[1..]| && b[1..][k] == a[j];
          assert b[k + 1] == a[j];
        }
        forall i, j | 0 <= i < j < |a|
          ensures a[i].title != a[j].title
        {
          if i > 0 {
            assert a[1..][i - 1] == a[i] && a[1..][j - 1] == a[j];
          }
        }
      } else {
        SubsequenceKeepsDistinct(a, b[1..]);
      }
    }
  }

  /** Every element of a subsequence occurs at some index of the whole. */
  lemma {:induction false} SubsequenceMembers<T>(a: seq<T>, b: seq<T>)
    requires IsSubsequence(a, b)
    ensures forall j :: 0 <= j < |a| ==> exists k :: 0 <= k < |b| && b[k] == a[j]
    decreases |b|
  {
    if a != [] && b != [] {
      if a[0] == b[0] && IsSubsequence(a[1..], b[1..]) {
        SubsequenceMembers(a[1..], b[1..]);
        forall j | 0 < j < |a|
          ensures exists k :: 0 <= k < |b| && b[k] == a[j]
        {
          assert a[1..][j - 1] == a[j];
          var k :| 0 <= k < |b[1..]| && b[1..][k] == a[j];
          assert b[k + 1] == a[j];
        }
        assert b[0] == a[0];
      } else {
        SubsequenceMembers(a, b[1..]);
        forall j | 0 <= j < |a|
          ensures exists k :: 0 <= k < |b| && b[k] == a[j]
        {
          var k :| 0 <= k < |b[1..]| && b[1..][k] == a[j];
          assert b[k + 1] == a[j];
        }
      }
    }
  }

  /** Deleting the project just created, by its fresh id, gives back the list
      as it was before the creation. */
  lemma CreateThenDeleteRestores(s: DashboardState, now: int, o: ServerOutcome<()>, o2: ServerOutcome<()>)
    requires !IsBlank(s.newProjectTitle) && !TitleTaken(s.projects, Trim(s.newProjectTitle))
    requires IsSuccess(o) && IsSuccess(o2)
    requires forall i :: 0 <= i < |s.projects| ==> s.projects[i].id != Some(now)
    ensures var created := CreateProject(s, now, o).state;
      DeleteProject(created, Some(now), Trim(s.newProjectTitle), o2).state.projects == s.projects
  {
    var created := CreateProject(s, now, o).state;
    var f := OtherId(Some(now));
    var record := created.projects[|s.projects|];
    assert created.projects == s.projects + [record];
    FilterAppend(f, s.projects, [record]);
    FilterAll(f, s.projects);
    assert Filter(f, [record]) == [];
  }
}
