/** The project detail view: one project's todos split into pending and
    completed, the new-todo input and the edit sub-state. The project title
    is fixed when the view is created. */
module ProjectView {
  import opened Wrappers
  import opened Text
  import opened Seqs
  import opened Api

  const FetchFallback := "Failed to fetch todos"
  const FetchTransportError := "Error fetching todos"

  datatype ViewState = ViewState(
    username: string,
    title: string,
    todos: seq<Todo>,
    completedTodos: seq<Todo>,
    newTodoDescription: string,
    editingTodoId: Option<string>,
    editedDescription: string,
    loading: bool,
    error: Option<string>)

  predicate IsPending(t: Todo) { t.completed == 0 }

  predicate IsCompleted(t: Todo) { t.completed == 1 }

  /** The displayed lists only ever hold records of their own kind. */
  predicate Partitioned(s: ViewState) {
    && (forall i :: 0 <= i < |s.todos| ==> IsPending(s.todos[i]))
    && (forall i :: 0 <= i < |s.completedTodos| ==> IsCompleted(s.completedTodos[i]))
  }

  /** The view for a selected project, before its todos arrive. */
  function Initial(username: string, project: Project): (s: ViewState)
    ensures s.title == project.title && s.username == username
    ensures s.todos == [] && s.completedTodos == [] && Partitioned(s)
    ensures s.newTodoDescription == "" && s.editedDescription == "" && !s.loading
    ensures s.editingTodoId.None? && s.error.None?
  {
    ViewState(username, project.title, [], [], "", None, "", false, None)
  }

  /** Loads the todos: a success shows the pending and the completed records
      of the reply in their original order; any failure keeps both lists and
      sets the error; loading ends either way. */
  function FetchTodos(s: ViewState, o: ServerOutcome<seq<Todo>>): (r: Step<ViewState>)
    ensures r.requests == [GetTodos(s.username, s.title)]
    ensures !r.state.loading
    ensures r.state.(todos := s.todos, completedTodos := s.completedTodos, error := s.error, loading := s.loading) == s
    ensures IsSuccess(o) ==> r.state.error == s.error
    ensures IsSuccess(o) ==> forall i :: 0 <= i < |o.reply.data| && IsPending(o.reply.data[i]) ==> o.reply.data[i] in r.state.todos
    ensures IsSuccess(o) ==> forall i :: 0 <= i < |o.reply.data| && IsCompleted(o.reply.data[i]) ==> o.reply.data[i] in r.state.completedTodos
    ensures IsSuccess(o) ==> forall i :: 0 <= i < |r.state.todos| ==> r.state.todos[i] in o.reply.data
    ensures IsSuccess(o) ==> forall i :: 0 <= i < |r.state.completedTodos| ==> r.state.completedTodos[i] in o.reply.data
    ensures !IsSuccess(o) ==> r.state.todos == s.todos && r.state.completedTodos == s.completedTodos
    ensures !IsSuccess(o) ==> r.state.error == Some(if o.TransportError? then FetchTransportError else FetchFallback)
    ensures Partitioned(s) ==> Partitioned(r.state)
  {
    var req := [GetTodos(s.username, s.title)];
    match o
    case TransportError =>
      Step(s.(error := Some(FetchTransportError), loading := false), req)
    case Delivered(reply) =>
      if reply.status == Some("success") then
        Step(s.(todos := Filter(IsPending, reply.data),
                completedTodos := Filter(IsCompleted, reply.data),
                loading := false), req)
      else
        Step(s.(error := Some(FetchFallback), loading := false), req)
  }

  /** Mounting the view fetches its project's todos. */
  function Mount(username: string, project: Project, o: ServerOutcome<seq<Todo>>): (r: Step<ViewState>)
    ensures r.requests == [GetTodos(username, project.title)]
    ensures r.state.title == project.title && Partitioned(r.state)
    ensures r.state.username == username && r.state.newTodoDescription == "" && r.state.editedDescription == ""
    ensures r.state.editingTodoId.None? && !r.state.loading
    ensures IsSuccess(o) ==> && r.state.error.None?
                             && r.state.todos == Filter(IsPending, o.reply.data)
                             && r.state.completedTodos == Filter(IsCompleted, o.reply.data)
    ensures !IsSuccess(o) ==> r.state.todos == [] && r.state.completedTodos == [] && r.state.error.Some?
  {
    FetchTodos(Initial(username, project), o)
  }

  /** The named input (`newTodoDescription`) records what was typed. */
  function HandleInputChange(s: ViewState, value: string): (r: ViewState)
    ensures r.newTodoDescription == value && r.(newTodoDescription := s.newTodoDescription) == s
  {
    s.(newTodoDescription := value)
  }

  /** The inline edit box records the edited text. */
  function ChangeEditedDescription(s: ViewState, value: string): (r: ViewState)
    ensures r.editedDescription == value && r.(editedDescription := s.editedDescription) == s
  {
    s.(editedDescription := value)
  }

  /** Adding a todo. A blank description returns before anything happens.
      Otherwise the untrimmed description is posted as pending; a success
      re-fetches and clears the input, a failure (only logged or alerted)
      keeps the lists and the input; loading ends either way. */
  function AddTodo(s: ViewState, post: ServerOutcome<()>, refetch: ServerOutcome<seq<Todo>>): (r: Step<ViewState>)
    ensures IsBlank(s.newTodoDescription) <==> r.requests == []
    ensures IsBlank(s.newTodoDescription) ==> r.state == s
    ensures r.requests != [] && IsSuccess(post) ==>
              && r.requests == [Request.AddTodo(s.username, s.title, s.newTodoDescription, 0), GetTodos(s.username, s.title)]
              && r.state == FetchTodos(s, refetch).state.(newTodoDescription := "")
    ensures r.requests != [] && !IsSuccess(post) ==>
              && r.requests == [Request.AddTodo(s.username, s.title, s.newTodoDescription, 0)]
              && r.state == s.(loading := false)
  {
    TrimEmptyIffBlank(s.newTodoDescription);
    if Trim(s.newTodoDescription) == "" then Step(s, [])
    else
      var add := Request.AddTodo(s.username, s.title, s.newTodoDescription, 0);
      if IsSuccess(post) then
        Step(FetchTodos(s, refetch).state.(newTodoDescription := ""), [add, GetTodos(s.username, s.title)])
      else
        Step(s.(loading := false), [add])
  }

  /** A post whose reply is not inspected, followed by a re-fetch when the
      post did not throw; a thrown post (only logged) changes nothing. */
  function PostThenRefetch(s: ViewState, call: Request, post: ServerOutcome<()>, refetch: ServerOutcome<seq<Todo>>): (r: Step<ViewState>)
    ensures |r.requests| > 0 && r.requests[0] == call
    ensures post.Delivered? ==> r.requests == [call, GetTodos(s.username, s.title)] && r.state == FetchTodos(s, refetch).state
    ensures post.TransportError? ==> r.requests == [call] && r.state == s
  {
    if post.Delivered? then
      Step(FetchTodos(s, refetch).state, [call, GetTodos(s.username, s.title)])
    else Step(s, [call])
  }

  /** Toggling sends only the identifying fields; the current flag the
      button passes is never transmitted. */
  function ToggleCompletion(s: ViewState, description: string, isCompleted: int,
                            post: ServerOutcome<()>, refetch: ServerOutcome<seq<Todo>>): (r: Step<ViewState>)
    ensures |r.requests| > 0 && r.requests[0] == UpdateTodoStatus(s.username, s.title, description)
    ensures post.Delivered? <==> |r.requests| == 2
    ensures post.Delivered? ==>
              r.requests == [r.requests[0], GetTodos(s.username, s.title)] && r.state == FetchTodos(s, refetch).state
    ensures post.TransportError? ==> r.requests == [r.requests[0]] && r.state == s
  {
    PostThenRefetch(s, UpdateTodoStatus(s.username, s.title, description), post, refetch)
  }

  /** Deleting sends only the identifying fields. */
  function DeleteTodo(s: ViewState, description: string,
                      post: ServerOutcome<()>, refetch: ServerOutcome<seq<Todo>>): (r: Step<ViewState>)
    ensures |r.requests| > 0 && r.requests[0] == Request.DeleteTodo(s.username, s.title, description)
    ensures post.Delivered? <==> |r.requests| == 2
    ensures post.Delivered? ==>
              r.requests == [r.requests[0], GetTodos(s.username, s.title)] && r.state == FetchTodos(s, refetch).state
    ensures post.TransportError? ==> r.requests == [r.requests[0]] && r.state == s
  {
    PostThenRefetch(s, Request.DeleteTodo(s.username, s.title, description), post, refetch)
  }

  /** Entering the edit sub-state for a todo: the edit target and the edit
      box both hold its description. */
  function StartEditing(s: ViewState, description: string): (r: ViewState)
    ensures r.editingTodoId == Some(description) && r.editedDescription == description
    ensures r.(editingTodoId := s.editingTodoId, editedDescription := s.editedDescription) == s
  {
    s.(editingTodoId := Some(description), editedDescription := description)
  }

  /** Leaving the edit sub-state without saving. */
  function CancelEditing(s: ViewState): (r: ViewState)
    ensures r.editingTodoId.None? && r.editedDescription == ""
    ensures r.(editingTodoId := s.editingTodoId, editedDescription := s.editedDescription) == s
  {
    s.(editingTodoId := None, editedDescription := "")
  }

  /** Saving an edit. Blank text does nothing. Otherwise the edit target is
      sent as the old description and the edited text, untrimmed, as the new
      one; unless the post throws, the view re-fetches and leaves the edit
      sub-state. */
  function SaveEditedTodo(s: ViewState, post: ServerOutcome<()>, refetch: ServerOutcome<seq<Todo>>): (r: Step<ViewState>)
    ensures IsBlank(s.editedDescription) <==> r.requests == []
    ensures IsBlank(s.editedDescription) ==> r.state == s
    ensures r.requests != [] ==>
              r.requests[0] == UpdateTodo(s.username, s.title, s.editingTodoId, s.editedDescription)
    ensures r.requests != [] && post.Delivered? ==>
              && r.requests == [r.requests[0], GetTodos(s.username, s.title)]
              && r.state == CancelEditing(FetchTodos(s, refetch).state)
    ensures r.requests != [] && post.TransportError? ==> r.requests == [r.requests[0]] && r.state == s
  {
    TrimEmptyIffBlank(s.editedDescription);
    if Trim(s.editedDescription) == "" then Step(s, [])
    else
      var update := UpdateTodo(s.username, s.title, s.editingTodoId, s.editedDescription);
      var posted := PostThenRefetch(s, update, post, refetch);
      if post.Delivered? then Step(posted.state.(editingTodoId := None, editedDescription := ""), posted.requests)
      else posted
  }

  /** Everything the user or the server can do to the view. */
  datatype Event =
    | Fetch(reply: ServerOutcome<seq<Todo>>)
    | TypeNewTodo(value: string)
    | TypeEdit(value: string)
    | Add(post: ServerOutcome<()>, refetch: ServerOutcome<seq<Todo>>)
    | Toggle(description: string, isCompleted: int, post: ServerOutcome<()>, refetch: ServerOutcome<seq<Todo>>)
    | Remove(description: string, post: ServerOutcome<()>, refetch: ServerOutcome<seq<Todo>>)
    | Edit(description: string)
    | Save(post: ServerOutcome<()>, refetch: ServerOutcome<seq<Todo>>)
    | Cancel

  /** One handler, run to completion. */
  function Apply(s: ViewState, e: Event): (r: Step<ViewState>)
    ensures r.state.title == s.title && r.state.username == s.username
    ensures Partitioned(s) ==> Partitioned(r.state)
  {
    match e
    case Fetch(o) => FetchTodos(s, o)
    case TypeNewTodo(v) => Step(HandleInputChange(s, v), [])
    case TypeEdit(v) => Step(ChangeEditedDescription(s, v), [])
    case Add(p, f) => AddTodo(s, p, f)
    case Toggle(d, c, p, f) => ToggleCompletion(s, d, c, p, f)
    case Remove(d, p, f) => DeleteTodo(s, d, p, f)
    case Edit(d) => Step(StartEditing(s, d), [])
    case Save(p, f) => SaveEditedTodo(s, p, f)
    case Cancel => Step(CancelEditing(s), [])
  }

  /** The state after a sequence of handlers. */
  function Run(s: ViewState, es: seq<Event>): ViewState
    decreases |es|
  {
    if es == [] then s else Run(Apply(s, es[0]).state, es[1..])
  }

  /** No sequence of handlers changes the project title or the user, and the
      displayed lists stay partitioned throughout. */
  lemma {:induction false} RunKeepsTitleAndPartition(s: ViewState, es: seq<Event>)
    requires Partitioned(s)
    ensures Run(s, es).title == s.title && Run(s, es).username == s.username
    ensures Partitioned(Run(s, es))
    decreases |es|
  {
    if es != [] {
      RunKeepsTitleAndPartition(Apply(s, es[0]).state, es[1..]);
    }
  }

  /** After a successful fetch the two lists are disjoint, every returned
      record with flag 0 or 1 is in exactly one of them as often as it was
      returned, and records with any other flag are in neither. */
  lemma FetchPartitionsExactly(s: ViewState, o: ServerOutcome<seq<Todo>>)
    requires IsSuccess(o)
    ensures var v := FetchTodos(s, o).state;
      && (forall t :: !(t in v.todos && t in v.completedTodos))
      && (forall t :: multiset(v.todos)[t] + multiset(v.completedTodos)[t] ==
                       if t.completed == 0 || t.completed == 1 then multiset(o.reply.data)[t] else 0)
      && IsSubsequence(v.todos, o.reply.data) && IsSubsequence(v.completedTodos, o.reply.data)
  {
    var data := o.reply.data;
    FilterCount(IsPending, data);
    FilterCount(IsCompleted, data);
    FilterIsSubsequence(IsPending, data);
    FilterIsSubsequence(IsCompleted, data);
  }

  /** When every returned flag is 0 or 1, the two lists together hold exactly
      the returned records. */
  lemma FetchKeepsEveryFlaggedRecord(s: ViewState, o: ServerOutcome<seq<Todo>>)
    requires IsSuccess(o)
    requires forall i :: 0 <= i < |o.reply.data| ==> o.reply.data[i].completed in {0, 1}
    ensures var v := FetchTodos(s, o).state;
      multiset(v.todos) + multiset(v.completedTodos) == multiset(o.reply.data)
  {
    var v := FetchTodos(s, o).state;
    var data := o.reply.data;
    FilterCount(IsPending, data);
    FilterCount(IsCompleted, data);
    forall t: Todo
      ensures (multiset(v.todos) + multiset(v.completedTodos))[t] == multiset(data)[t]
    {
      if t.completed != 0 && t.completed != 1 {
        assert t !in data;
      }
    }
  }

  /** The single-pass partition: one scan of the records, appending each to
      the pending or the completed list by its flag. */
  method PartitionTodos(ts: seq<Todo>) returns (pending: seq<Todo>, completed: seq<Todo>)
    ensures pending == Filter(IsPending, ts) && completed == Filter(IsCompleted, ts)
  {
    pending, completed := [], [];
    var i := 0;
    while i < |ts|
      invariant 0 <= i <= |ts|
      invariant pending == Filter(IsPending, ts[..i])
      invariant completed == Filter(IsCompleted, ts[..i])
    {
      var t := ts[i];
      assert ts[..i + 1] == ts[..i] + [t];
      FilterSnoc(IsPending, ts[..i], t);
      FilterSnoc(IsCompleted, ts[..i], t);
      if t.completed == 0 {
        pending := pending + [t];
      } else if t.completed == 1 {
        completed := completed + [t];
      }
      i := i + 1;
    }
    assert ts[..i] == ts;
  }

  /** Cancelling right after starting an edit leaves the view as it was
      outside the edit sub-state. */
  lemma StartThenCancel(s: ViewState, description: string)
    requires s.editingTodoId.None? && s.editedDescription == ""
    ensures CancelEditing(StartEditing(s, description)) == s
  {
  }
}
