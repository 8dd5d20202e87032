# todoapp client state, in Dafny

A model of the state logic of a small React to-do client. Users sign up, log
in, keep a list of named projects and manage each project's todos against a
remote PHP API. The model covers the four views that hold logic:

- the **login** and **sign-up** forms (`Login`, `SignUp`): input changes, the
  sign-up password-match gate, the reading of the server's reply and the
  navigation that follows;
- the **project list** (`Dashboard`): the username default, fetching,
  creating (blank and duplicate-title gates), deleting by id, and the
  selection;
- the **project detail view** (`ProjectView`): the fetch that splits todos
  into pending and completed, adding, toggling, deleting, and the edit
  sub-state (start / save / cancel).

Every handler that calls the server is a pure function `state × inputs ×
server outcomes → Step(state, requests)`; the purely local handlers (typing,
selecting and deselecting a project, starting and cancelling an edit) take
no outcome and return the new state only. A `ServerOutcome` is either a delivered JSON reply (`status` and
`message` possibly absent, plus the payload) or a `TransportError` (the call
threw). `requests` lists the calls the handler issued, with exactly the
fields it transmits. Each handler runs to completion atomically.

Supporting modules: `Wrappers` (optional values), `Text` (whitespace,
blankness, `trim`), `Seqs` (`filter` and what it keeps), `Api` (records,
replies, requests, the reply classification both auth forms share) and `Flow`
(the hand-over between views).

## Model

| member | source | states |
|---|---|---|
| Text.Trim | src/components/dashboard.js:45 | the trimmed string is no longer than the input and neither starts nor ends with whitespace (that it is the slice between the blank ends is `Text.TrimIsInfix`) |
| Text.TrimIsInfix | src/components/dashboard.js:59 | the trimmed title is the input with a blank prefix and a blank suffix cut off, nothing else |
| Text.TrimEmptyIffBlank | src/components/dashboard.js:45-48 | `trim() === ''` holds exactly when every character is whitespace |
| Text.TrimIdempotent | src/components/dashboard.js:59-65 | a trimmed title is unchanged by trimming again |
| Seqs.Filter | src/components/dashboard.js:90 | filtering keeps only elements that pass, keeps every element that passes, and never lengthens the list |
| Seqs.FilterCount | src/components/projectview.js:40-41 | filtering keeps each passing element exactly as often as it occurred and drops the rest |
| Seqs.FilterIsSubsequence | src/components/projectview.js:40-41 | filtering preserves the original order |
| Seqs.FilterAppend | src/components/projectview.js:40-41 | filtering a concatenation is concatenating the filtered parts |
| Seqs.FilterSnoc | src/components/projectview.js:40-41 | filtering a list grown by one element adds that element exactly when it passes |
| Seqs.FilterAll | src/components/dashboard.js:90 | a filter every element passes returns the list unchanged |
| Api.MessageOr | src/components/dashboard.js:73 | the server's message is shown when present and non-empty, the fixed fallback otherwise |
| Api.ClassifyAuth | src/components/login.js:32-42 | only `status === 'error'` keeps the user on the form with the server's message; any other status, absent included, redirects; a thrown call shows the generic message |
| Dashboard.Initial | src/components/dashboard.js:8-12 | the list view starts with no projects, an empty title input, no selection, no error and not loading |
| Dashboard.ResolveUsername | src/components/dashboard.js:15 | an absent or empty navigation username becomes `Guest`; a present one is kept |
| Dashboard.Mount | src/components/dashboard.js:14-21 | the projects are fetched for the resolved user and shown (or the error set, with an empty list) on the fresh view; no call is made for `Guest`; loading ends false |
| Dashboard.FetchProjects | src/components/dashboard.js:23-37 | success replaces the list wholesale; any failure keeps the old list and sets the server message, the fallback or the connection error; loading ends false |
| Dashboard.HandleInputChange | src/components/dashboard.js:39-42 | typing records the title and clears the error, nothing else |
| Dashboard.CreateProject | src/components/dashboard.js:44-78 | no call is made exactly when the title is blank or its trimmed form is already a listed title (case-sensitive), and then only the matching error is set; otherwise the trimmed title is posted, success appends exactly one record `{now, trimmed title, []}` and clears input and error, failure only sets the error |
| Dashboard.DeleteProject | src/components/dashboard.js:80-98 | the title is posted; success leaves only projects with a different id, keeping every such project; failure changes nothing |
| Dashboard.ViewProject | src/components/dashboard.js:100-102 | opening a project selects it and changes nothing else |
| Dashboard.GoBack | src/components/dashboard.js:104-106 | going back clears the selection and changes nothing else |
| Dashboard.DeleteRemovesExactly | src/components/dashboard.js:88-91 | a successful delete keeps every other-id project with its multiplicity, drops every matching one, in the original order |
| Dashboard.DeleteIdempotent | src/components/dashboard.js:88-91 | deleting the same id twice is deleting it once |
| Dashboard.CreateKeepsTitlesDistinct | src/components/dashboard.js:50-69 | creation never introduces a duplicate title |
| Dashboard.CreatedTitleIsTrimmed | src/components/dashboard.js:59-65 | a created project's title is non-empty and unchanged by trimming, the same title that was posted |
| Dashboard.DeleteKeepsTitlesDistinct | src/components/dashboard.js:88-91 | deletion keeps titles distinct |
| Dashboard.SubsequenceKeepsDistinct | src/components/dashboard.js:90 | any order-preserving selection of a list with distinct titles has distinct titles |
| Dashboard.CreateThenDeleteRestores | src/components/dashboard.js:63-90 | deleting the just-created project by its fresh id restores the list as it was before |
| ProjectView.Initial | src/components/projectview.js:6-18 | the view takes its title from the selected project and starts with empty lists, empty inputs, no edit target, no error and not loading |
| ProjectView.Mount | src/components/projectview.js:21-23 | mounting fetches exactly the selected project's todos on the freshly built view: success shows the pending and completed records with no error, failure leaves both lists empty and sets the error; the inputs and edit state stay empty and loading ends false |
| ProjectView.FetchTodos | src/components/projectview.js:25-57 | success fills the pending list with flag-0 records and the completed list with flag-1 records of the reply; any failure keeps both lists and sets the matching error; loading ends false; partitioning is preserved |
| ProjectView.FetchPartitionsExactly | src/components/projectview.js:36-47 | the two lists are disjoint, each in reply order, and together hold every flag-0/flag-1 record as often as returned and no record with another flag |
| ProjectView.FetchKeepsEveryFlaggedRecord | src/components/projectview.js:40-41 | when every flag is 0 or 1, the two lists together are exactly the reply |
| ProjectView.PartitionTodos | src/components/projectview.js:40-41 | one pass over the records computes both lists of the two filters |
| ProjectView.HandleInputChange | src/components/projectview.js:60-62 | typing in the new-todo input sets that field only |
| ProjectView.ChangeEditedDescription | src/components/projectview.js:220 | typing in the edit box sets the edited text only |
| ProjectView.AddTodo | src/components/projectview.js:65-95 | a blank description makes no call and changes nothing; otherwise the untrimmed description is posted with `completed: 0`, success re-fetches and clears the input, failure keeps lists and input |
| ProjectView.PostThenRefetch | src/components/projectview.js:102-111 | an unchecked post is followed by a re-fetch unless it throws, in which case nothing changes |
| ProjectView.ToggleCompletion | src/components/projectview.js:98-112 | the status update sends only user, project and description, never the current flag, and is followed by a re-fetch whose result the view shows unless it throws; a thrown post changes nothing |
| ProjectView.DeleteTodo | src/components/projectview.js:115-129 | the delete sends only user, project and description and is followed by a re-fetch whose result the view shows unless it throws; a thrown post changes nothing |
| ProjectView.StartEditing | src/components/projectview.js:132-137 | the edit target and the edit box both become the description |
| ProjectView.CancelEditing | src/components/projectview.js:167-172 | the edit target is reset to null and the edit box to empty |
| ProjectView.SaveEditedTodo | src/components/projectview.js:140-164 | blank text makes no call and changes nothing; otherwise the target is sent as old and the untrimmed text as new description; unless the post throws the view re-fetches and leaves the edit sub-state |
| ProjectView.Apply | src/components/projectview.js:25-172 | no handler changes the title or the user, and every handler keeps the lists partitioned |
| ProjectView.RunKeepsTitleAndPartition | src/components/projectview.js:9 | across any sequence of handlers the title fixed at construction never changes and the lists stay partitioned |
| ProjectView.StartThenCancel | src/components/projectview.js:132-172 | cancelling right after starting an edit returns to the non-editing state |
| Login.Initial | src/components/login.js:9-14 | the form starts empty, not redirected, with no error shown |
| Login.HandleInputChange | src/components/login.js:18-21 | an input change sets the named field and nothing else |
| Login.HandleLogin | src/components/login.js:24-43 | the credentials are posted; an error reply sets the server message and does not redirect; any other reply redirects; a thrown call sets the generic error and does not redirect |
| Login.Navigation | src/components/login.js:47-49 | once redirected the form goes to `/dashboard` carrying the entered email as username |
| SignUp.Initial | src/components/sign-up.js:10-16 | the form starts with all three fields empty, not redirected, with an empty error |
| SignUp.HandleInputChange | src/components/sign-up.js:20-25 | an input change sets the named field and nothing else |
| SignUp.HandleSignUp | src/components/sign-up.js:28-54 | mismatched passwords make no call and change nothing; otherwise email and password are posted and the reply read as by the login form |
| SignUp.Navigation | src/components/sign-up.js:58-60 | once redirected the form goes to `/login` carrying no username |
| Flow.LoginHandsOverIdentity | src/components/login.js:47-48 | a successful login lands on the project list as the entered email, which fetches that user's projects unless the email is empty or `Guest` |
| Flow.FailedLoginStays | src/components/login.js:32-42 | an error reply or a thrown call never navigates |
| Flow.SignUpCarriesNoIdentity | src/components/sign-up.js:58-59 | sign-up navigates to `/login` carrying no username |
| Flow.ViewOpensSelectedProject | src/components/dashboard.js:156 | the detail view opened for a selection has its title and first fetches its todos |

## Left out

- HTTP: axios, the endpoint URLs and query strings (the username and project name are not URL-encoded in the source) are not modelled; each call's outcome is an argument.
- `alert` and `console` output: side effects with no state change. A failed project delete, a failed todo add, a sign-up password mismatch and a successful login or sign-up only alert or log.
- Rendering: JSX, CSS, the loading and error markup; the routing table in `src/App.js` and the static landing page hold no logic.
- `Date.now()`: the new project's id is the `now` parameter.
- Asynchrony: each handler is atomic. The re-fetches after add, toggle, delete and save are not awaited in the source, so their `loading` updates can interleave with the caller's; the model settles both.
- Trim: `Text.IsSpace` lists the ASCII blanks and line terminators, U+00A0, U+FEFF, U+2028 and U+2029; the other Unicode space separators (U+1680, U+2000–U+200A, U+202F, U+205F, U+3000) that `trim` also strips are not listed.
- The completion flag is an integer; JavaScript's loose `==` (matching `"0"`, `false`, `"1"`, `true`) is not modelled.
- The `required` attributes and `type="email"` on the auth inputs: the browser refuses to submit empty fields or an email field that is not an address (such as `Guest`); the model does not, so it also covers an empty email and the literal `Guest` in `Flow.LoginHandsOverIdentity`, which the form itself cannot produce.
- Malformed replies: a success reply without its `projects` or `todos` list, and non-string `status`, `message` or `title` values.
- `ProjectView.HandleInputChange` models `[e.target.name]` for the one named input of the view (`newTodoDescription`); other names would add fields to the component state.
- `e.preventDefault()` on form submission.
- Unmounting: going back discards the detail view's state; a later selection builds a fresh view (`ProjectView.Initial`).
