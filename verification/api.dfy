/** The remote API as the views consume it: the JSON records they receive,
    the replies and failures of a call, and the requests they issue.
    The HTTP transport itself is not modelled: a handler receives the outcome
    of each call it makes as an argument. */
module Api {
  import opened Wrappers

  /** A todo record as returned by the todo list endpoint. The completion
      flag is the raw number the server sends (0 pending, 1 completed). */
  datatype Todo = Todo(description: string, completed: int, date: string)

  /** A project record. Records built by the client carry `Some(id)`;
      records from the server may carry no id at all. */
  datatype Project = Project(id: Option<int>, title: string, todos: seq<Todo>)

  /** The JSON body of a reply: `status` and `message` may be absent. */
  datatype Reply<T> = Reply(status: Option<string>, message: Option<string>, data: T)

  /** What a call yields: a reply, or a rejected promise (network failure or
      an HTTP error status), which the handlers catch. */
  datatype ServerOutcome<T> = Delivered(reply: Reply<T>) | TransportError

  /** The reply reports `status === 'success'`. */
  predicate IsSuccess<T>(o: ServerOutcome<T>) {
    o.Delivered? && o.reply.status == Some("success")
  }

  /** The reply reports `status === 'error'`. */
  predicate IsReportedError<T>(o: ServerOutcome<T>) {
    o.Delivered? && o.reply.status == Some("error")
  }

  /** One HTTP call a handler issues, with exactly the fields it transmits. */
  datatype Request =
    | LoginRequest(email: string, password: string)
    | SignupRequest(email: string, password: string)
    | GetProjects(username: string)
    | AddProject(username: string, projectTitle: string)
    | DeleteProject(username: string, projectTitle: string)
    | GetTodos(username: string, projectName: string)
    | AddTodo(username: string, projectName: string, description: string, completed: int)
    | UpdateTodoStatus(username: string, projectName: string, description: string)
    | UpdateTodo(username: string, projectName: string, oldDescription: Option<string>, newDescription: string)
    | DeleteTodo(username: string, projectName: string, description: string)

  /** A settled handler: the state it leaves and the calls it issued, in order. */
  datatype Step<S> = Step(state: S, requests: seq<Request>)

  /** A client-side navigation: the target path and the username carried in
      the navigation state, if any. */
  datatype Navigation = Navigate(path: string, username: Option<string>)

  /** `message || fallback`: the server's message when it is present and
      non-empty (an empty string is falsy), the fallback otherwise. */
  function MessageOr(message: Option<string>, fallback: string): (r: string)
    ensures r == fallback || message == Some(r)
    ensures r == fallback <== message.None? || message == Some("")
    ensures message.Some? && message.value != "" ==> r == message.value
    ensures r != "" <== fallback != ""
  {
    if message.Some? && message.value != "" then message.value else fallback
  }

  /** The message both auth forms show when the call throws. */
  const GenericAuthError := "An error occurred. Please try again later."

  /** What an auth form does with the outcome of its call. */
  datatype AuthVerdict = Redirect | ShowError(message: Option<string>)

  /** The auth forms' reading of a reply: only `status === 'error'` keeps the
      user on the form with the server's message (possibly absent); any other
      status, an absent one included, counts as success; a thrown call shows
      the generic message. */
  function ClassifyAuth<T>(o: ServerOutcome<T>): (v: AuthVerdict)
    ensures v.Redirect? <==> o.Delivered? && o.reply.status != Some("error")
    ensures IsReportedError(o) ==> v == ShowError(o.reply.message)
    ensures o.TransportError? ==> v == ShowError(Some(GenericAuthError))
  {
    match o
    case TransportError => ShowError(Some(GenericAuthError))
    case Delivered(reply) =>
      if reply.status == Some("error") then ShowError(reply.message) else Redirect
  }
}
