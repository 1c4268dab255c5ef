# Document-Chat front end: identity, documents and chat state

Document-Chat is a browser page where a visitor uploads PDF documents and
asks questions about them in a chat backed by a remote language-model
server. This project models the sequential logic of its client in Dafny:

- **Cookie lookup** (`cookies.dfy`, `jsstring.dfy`). `getCookie` finds
  `name=` in a `"; "`-separated cookie string and returns the raw value up
  to the next `;`. The cookie string is a parameter. JavaScript's `indexOf`
  and `substring` are written out, including `substring`'s swapping of
  reversed bounds.
- **Identity resolution** (`identity.dfy`). `setVisitor` takes what
  `getCookie('session-cookie')` returned. It either asks to register (no
  value, or an empty one) or adopts the first server session whose
  `sessionCookie` equals the value (`undefined` when none does). The
  handlers of the `/visitor` and `/session` replies are pure decisions from
  the reply to an `Action`: a follow-up request, a session to adopt, a
  document list, or the error notice.
- **Document registry** (`documents.dfy`). The `DocumentUpload` component
  is a class with fields `stagedFiles`, `uploadedDocs` and `loading`. Its
  methods are staging, the upload trigger, the upload outcome and the clear
  outcome.
- **Chat transcript** (`conversation.dfy`, `application.dfy`). The chat
  component is a class with `messages`, the input `message` and
  `awaitingResponse`. It covers optimistic append, the reply, presets and
  wholesale replacement when the session's messages change. The chat
  inlined in `src/App.tsx` differs from it: it never touches
  `awaitingResponse`, and a preset click submits at once. That chat is
  modelled as its own class, `InlineChat`. The `dotDotDot` helper and its
  four-step cycle are in `conversation.dfy`.
- **App state** (`application.dfy`). The adopted session, the notification
  signal, and the effect that publishes an adopted session's documents and
  transcript.

Every server call is an input of type `Reply<T>`: either `Threw` (a rejected
`fetch` or a body that failed to parse) or `Answered(ok, body)`. The
component in `src/components/Document.tsx` is duplicated, apart from
logging, in `src/App.tsx:37-156`, so the one `DocumentUpload` class models
both.

Behaviour the model reproduces as written:
- several sessions carrying the cookie: the first in the server's list is
  adopted;
- a cookie that matches no session: the session becomes `undefined`, with
  no re-registration;
- a not-ok chat reply: `awaitingResponse` stays raised, so the input and
  the send button stay disabled.

## Model

| member | source | states |
|---|---|---|
| `JsString.IndexOf` | src/App.tsx:9-19 | `indexOf` returns the least index at or after `from` where the pattern occurs, or -1 exactly when it occurs nowhere from there |
| `JsString.Substring` | src/App.tsx:24 | `substring` is the slice between its bounds, in either order |
| `Cookies.CookieStart` | src/App.tsx:8-17 | the name is found only on a cookie boundary (start of string or after `"; "`), with `name=` there; none iff `"; name="` occurs nowhere and the string does not start with `name=` |
| `Cookies.ValueEnd` | src/App.tsx:19-22 | the value ends at the first `;` at or after the cookie's start, or at the end of the string |
| `Cookies.GetCookie` | src/App.tsx:5-25 | `null` exactly when neither `"; name="` occurs nor the string starts with `name=` |
| `Cookies.RawValueSlice` | src/App.tsx:19-24 | for a name without `;`: start + length of `name=` <= end <= length, and the value is the slice between them |
| `Cookies.RawValueHasNoSemicolon` | src/App.tsx:19-24 | for a name without `;`, the returned value contains no `;` |
| `Cookies.DelimitedMatchPreferred` | src/App.tsx:9-17 | the first occurrence after `"; "` is used, even when the string also starts with `name=` |
| `Cookies.LongerNameNotMatched` | src/App.tsx:9-14 | in a string holding only a cookie named `other + name`, no cookie `name` is found |
| `Cookies.LongerNameNeverStart` | src/App.tsx:9-17 | anywhere in the cookie string, a cookie named `other + name` never supplies the start of cookie `name` |
| `Cookies.StartAfterFirst` | src/App.tsx:9-17 | a cookie after `;`-free text starts just after its `"; "` |
| `Cookies.CookieAfterAnother` | src/App.tsx:5-25 | a cookie after another one (`first; name=v`, no `;` in the parts) yields exactly `v`, its value up to the end of the string |
| `Identity.Matching` | src/App.tsx:359 | the filter keeps exactly the sessions carrying the token: every kept one carries it and comes from the list, every carrying one is kept |
| `Identity.SetVisitor` | src/App.tsx:352-366 | registers iff the cookie is missing or empty; otherwise adopts a listed session carrying the token, or `undefined` iff none carries it |
| `Identity.FirstMatchHeads` | src/App.tsx:359-365 | the first session carrying the token heads the filtered list |
| `Identity.AdoptsFirstMatch` | src/App.tsx:359-365 | with a non-empty cookie value, the first session carrying it is adopted |
| `Identity.AdoptsUniqueMatch` | src/App.tsx:359-365 | with a non-empty cookie value carried by exactly one session, that session is adopted |
| `Identity.OnGetVisitor` | src/App.tsx:369-392 | a thrown call does nothing; registration iff the visitor is unknown or has no cookie; otherwise the `setVisitor` choice; never a notice |
| `Identity.OnRegisterVisitor` | src/App.tsx:394-413 | a thrown call, and only that, does nothing; a reply goes through `setVisitor` |
| `Identity.OnCreateSession` | src/App.tsx:417-432 | a thrown call, and only that, publishes the error notice; a reply goes through `setVisitor` |
| `Identity.OnGetSession` | src/App.tsx:434-453 | creates a session iff the reply says none exists; takes the first session's documents iff one exists and the list is non-empty; error notice iff thrown or the list is empty |
| `Identity.StatusFlagIgnored` | src/App.tsx:369-453 | none of the four reply handlers depends on the response's `ok` flag |
| `Documents.DocumentUpload.constructor` | src/components/Document.tsx:8-10 | nothing staged, not loading, confirmed list as given |
| `Documents.DocumentUpload.AddFiles` | src/components/Document.tsx:14-18 | the staged list becomes the old one followed by the given files, in order |
| `Documents.DocumentUpload.StagedFilesChanged` | src/components/Document.tsx:63-68 | an upload batch is started iff the staged list is non-empty; the batch is the whole staged list and `loading` is raised |
| `Documents.DocumentUpload.UploadReply` | src/components/Document.tsx:20-44 | any parsed reply, ok or not, appends its documents to the confirmed list and empties the staged list; a thrown call changes neither; `loading` drops in both cases |
| `Documents.DocumentUpload.ClearDocuments` | src/components/Document.tsx:46-61 | an ok reply empties both lists; a not-ok reply or a rejected `fetch` leaves both unchanged (a body that fails to read after an ok reply is `Answered(true, ())`: the lists are already empty) |
| `Documents.DocumentUpload.SetUploadedDocs` | src/App.tsx:336 | the parent's setter replaces the confirmed list |
| `Conversation.DotDotDot` | src/components/Chat.tsx:14-19 | the result ends in `.` and has 1 to 4 characters; text longer than 3 gives one character, shorter text is kept and extended by one |
| `Conversation.Dots` | src/components/Chat.tsx:14-19 | a string of n dots (the states of iterating `dotDotDot`) |
| `Conversation.AnimationCycles` | src/components/Chat.tsx:15-18 | iterating from `.` gives `.`, `..`, `...`, `....` and back to `.` |
| `Conversation.AnimationPeriod` | src/components/Chat.tsx:15-18 | the iteration has period four |
| `Conversation.Chat.constructor` | src/components/Chat.tsx:23-25 | transcript from the session, empty input, not awaiting |
| `Conversation.Chat.SetInput` | src/components/Chat.tsx:152-154 | typing sets the input |
| `Conversation.Chat.PostMessage` | src/components/Chat.tsx:56-65 | empty input: nothing changes and nothing is sent; otherwise exactly one HUMAN message with the input is appended, the input becomes empty, `awaitingResponse` becomes true, and the old input is sent |
| `Conversation.Chat.ChatReply` | src/components/Chat.tsx:76-81 | an ok reply appends exactly the server message and lowers `awaitingResponse`; a not-ok or thrown reply appends nothing and leaves the flag as it was |
| `Conversation.Chat.Ask` | src/components/Chat.tsx:56-83 | a full round trip: the old transcript plus the HUMAN message is a prefix of the result, followed by the server message only on an ok reply |
| `Conversation.Chat.SelectPreset` | src/components/Chat.tsx:127-135 | a preset click sets the input to its question; the transcript and the flag are untouched |
| `Conversation.Chat.SessionMessagesChanged` | src/components/Chat.tsx:32-34 | new session messages replace the transcript wholesale |
| `Application.InlineChat.constructor` | src/App.tsx:195-198 | transcript from the session, empty input |
| `Application.InlineChat.SetInput` | src/App.tsx:309-311 | typing sets the input |
| `Application.InlineChat.PostMessage` | src/App.tsx:227-233 | empty input: nothing changes; otherwise exactly one HUMAN message with the input is appended and the input is cleared |
| `Application.InlineChat.PostPreset` | src/App.tsx:257-263 | a preset click appends its question as a HUMAN message, sends it and clears the input |
| `Application.InlineChat.ChatReply` | src/App.tsx:246-250 | the server message is appended only on an ok reply, after what is already there |
| `Application.InlineChat.SessionMessagesChanged` | src/App.tsx:202-204 | new session messages replace the transcript wholesale |
| `Application.App.constructor` | src/App.tsx:336-346 | empty documents, transcript and notice; the initial session is empty |
| `Application.App.Perform` | src/App.tsx:460-464 | adopting a session publishes its documents and transcript and keeps the staged files and the input; `undefined` only clears the session; a document list replaces the confirmed list; a notice sets the signal; requests change nothing |

## Left out

- Rendering, CSS, drag-over styling, auto-scroll, `useMemo`, the `Spinner` and
  `Notification` components and the React context wiring: presentation only.
- `fetch`, `FormData`, `response.json()`, `response.text()` and the
  configured server URL: network and foreign APIs; their outcome is the
  `Reply` input.
- `decodeURIComponent` is taken as the identity on the raw value. The
  `URIError` it throws on a malformed escape is not modelled.
- A name containing `;` makes `substring` swap its bounds. This is
  modelled, but the slice and no-`;` lemmas are stated only for names
  without `;`. The only name the code uses, `session-cookie`, has none.
- Replies whose JSON lacks the expected field are not modelled: the model
  takes the body as already typed. In the code, a missing `documents`
  field adds an `undefined` entry. A missing `sessions` field throws in
  `setVisitor` only when a session cookie is present (without one it
  returns before filtering), and in `getSession` only when `exists` is true.
- `streamMessage`, the experimental stream reader of the chat component: it
  only logs what it reads.
- Interleaving of overlapping asynchronous completions, such as two uploads
  in flight: each method is one step of a single event loop turn.
- The `setVisitor` → `registerVisitor` → `setVisitor` chain: one decision
  step is modelled, and the follow-up request is the returned action.
- The `disabled={awaitingResponse}` attributes that stop resubmission while
  a reply is pending are rendering: they are not preconditions of
  `PostMessage`.
- Application.App.Perform: adopting `undefined` only sets the session. The
  render then reads `session.conversation` of `undefined` and fails; that
  failure of the rendering layer is not modelled.
- String lengths count characters, while JavaScript's `length` counts UTF-16
  code units. `dotDotDot` therefore differs on text with characters outside
  the Basic Multilingual Plane (`"ab😀"` has JavaScript length 4). Nothing
  in the code calls `dotDotDot` (the waiting indicator is a CSS animation),
  so the difference never shows. The cookie parser is not
  affected: its patterns are ASCII and its slices coincide.
- The PDF-only filter of the file picker: files are opaque names.
- The App's `conversation` state is written but never read; it is kept as
  a field and nothing is proved about it.
