/** Identity resolution of the top-level App component: which session the
    browser adopts, given the cookie string and the sessions the server
    reports, and what each visitor/session reply leads to. Every server call
    is represented by its reply; the follow-up request it causes is part of
    the returned action. */
module Identity {
  import opened Types
  import Cookies

  /** The name of the cookie that holds the session token. */
  const SessionCookieName: string := "session-cookie"

  /** The single advisory text `handleError` publishes. */
  const ErrorNotice: string := "There has been an error on the server, please try again."

  /** Body of the `/visitor` and `/session` replies. */
  datatype VisitorBody = VisitorBody(visitorExists: bool, sessions: seq<Session>)

  /** What a reply handler does next. `AdoptSession(None)` is
      `setSession(undefined)`. */
  datatype Action =
    | Nothing
    | RegisterVisitor
    | CreateSession
    | AdoptSession(session: Option<Session>)
    | SetDocuments(documents: seq<string>)
    | Notify(notice: string)

  /** `getCookie('session-cookie')` over the browser's cookie string. */
  function SessionToken(cookies: string): (token: Option<string>)
  {
    Cookies.GetCookie(cookies, SessionCookieName)
  }

  /** `!sessionCookie` is false: the cookie exists and its value is not the
      (falsy) empty string. */
  predicate Present(sessionCookie: Option<string>)
  {
    sessionCookie.Some? && sessionCookie.value != ""
  }

  /** `sessions.filter(s => s.sessionCookie === token)`. */
  function Matching(sessions: seq<Session>, token: string): (r: seq<Session>)
    ensures |r| <= |sessions|
    ensures forall s :: s in r ==> s in sessions && s.sessionCookie == token
    ensures forall i :: 0 <= i < |sessions| && sessions[i].sessionCookie == token ==> sessions[i] in r
  {
    if sessions == [] then []
    else if sessions[0].sessionCookie == token then [sessions[0]] + Matching(sessions[1..], token)
    else Matching(sessions[1..], token)
  }

  /** `setVisitor(sessions)`, given what `getCookie` returned for the session
      cookie: without a value, register; otherwise adopt the first session
      carrying it, or `undefined` when none does. */
  function SetVisitor(sessionCookie: Option<string>, sessions: seq<Session>): (a: Action)
    ensures a == RegisterVisitor <==> !Present(sessionCookie)
    ensures a != RegisterVisitor ==> a.AdoptSession?
    ensures a.AdoptSession? && a.session.Some? ==>
              a.session.value in sessions && a.session.value.sessionCookie == sessionCookie.value
    ensures a.AdoptSession? && a.session.None? <==>
              Present(sessionCookie) && forall i :: 0 <= i < |sessions| ==> sessions[i].sessionCookie != sessionCookie.value
  {
    if !Present(sessionCookie) then RegisterVisitor
    else
      var current := Matching(sessions, sessionCookie.value);
      if |current| < 1 then AdoptSession(None) else AdoptSession(Some(current[0]))
  }

  /** The first session that carries the token heads the filtered list. */
  lemma {:induction false} FirstMatchHeads(sessions: seq<Session>, token: string, i: nat)
    requires i < |sessions| && sessions[i].sessionCookie == token
    requires forall j :: 0 <= j < i ==> sessions[j].sessionCookie != token
    ensures Matching(sessions, token) != [] && Matching(sessions, token)[0] == sessions[i]
  {
    if i > 0 {
      FirstMatchHeads(sessions[1..], token, i - 1);
    }
  }

  /** With a cookie value, the first session that carries it is adopted. */
  lemma AdoptsFirstMatch(token: string, sessions: seq<Session>, i: nat)
    requires token != ""
    requires i < |sessions| && sessions[i].sessionCookie == token
    requires forall j :: 0 <= j < i ==> sessions[j].sessionCookie != token
    ensures SetVisitor(Some(token), sessions) == AdoptSession(Some(sessions[i]))
  {
    FirstMatchHeads(sessions, token, i);
  }

  /** With a cookie value carried by exactly one session, that session is
      adopted. */
  lemma AdoptsUniqueMatch(token: string, sessions: seq<Session>, i: nat)
    requires token != ""
    requires i < |sessions| && sessions[i].sessionCookie == token
    requires forall j :: 0 <= j < |sessions| && j != i ==> sessions[j].sessionCookie != token
    ensures SetVisitor(Some(token), sessions) == AdoptSession(Some(sessions[i]))
  {
    AdoptsFirstMatch(token, sessions, i);
  }

  /** `getVisitor`'s reply: a visitor the server does not know is registered,
      a known one goes through `setVisitor`; a thrown call is only logged. */
  function OnGetVisitor(cookies: string, reply: Reply<VisitorBody>): (a: Action)
    ensures reply.Threw? <==> a == Nothing
    ensures !a.Notify? && !a.CreateSession? && !a.SetDocuments?
    ensures a == RegisterVisitor <==> reply.Answered? && (!reply.body.visitorExists || !Present(SessionToken(cookies)))
    ensures reply.Answered? && reply.body.visitorExists ==>
              a == SetVisitor(SessionToken(cookies), reply.body.sessions)
    ensures a.AdoptSession? ==> reply.Answered? && reply.body.visitorExists
  {
    match reply
    case Threw => Nothing
    case Answered(_, body) =>
      if !body.visitorExists then RegisterVisitor else SetVisitor(SessionToken(cookies), body.sessions)
  }

  /** `registerVisitor`'s reply: its sessions go through `setVisitor` (which
      may ask to register again); a thrown call is only logged. */
  function OnRegisterVisitor(cookies: string, reply: Reply<VisitorBody>): (a: Action)
    ensures reply.Threw? <==> a == Nothing
    ensures reply.Answered? ==> a == SetVisitor(SessionToken(cookies), reply.body.sessions)
  {
    match reply
    case Threw => Nothing
    case Answered(_, body) => SetVisitor(SessionToken(cookies), body.sessions)
  }

  /** `createSession`'s reply: its sessions go through `setVisitor`; a thrown
      call publishes the error notice. */
  function OnCreateSession(cookies: string, reply: Reply<seq<Session>>): (a: Action)
    ensures reply.Threw? <==> a == Notify(ErrorNotice)
    ensures reply.Answered? ==> a == SetVisitor(SessionToken(cookies), reply.body)
  {
    match reply
    case Threw => Notify(ErrorNotice)
    case Answered(_, sessions) => SetVisitor(SessionToken(cookies), sessions)
  }

  /** `getSession`'s reply: an existing session list supplies the documents of
      its first session; indexing an empty list throws inside the `try` and
      ends in the error notice, as does a thrown call; otherwise a session is
      created. */
  function OnGetSession(reply: Reply<VisitorBody>): (a: Action)
    ensures a == CreateSession <==> reply.Answered? && !reply.body.visitorExists
    ensures a.SetDocuments? <==> reply.Answered? && reply.body.visitorExists && |reply.body.sessions| > 0
    ensures a.SetDocuments? ==> a.documents == reply.body.sessions[0].documents
    ensures a.Notify? <==> reply.Threw? || (reply.body.visitorExists && reply.body.sessions == [])
    ensures a.Notify? ==> a.notice == ErrorNotice
  {
    match reply
    case Threw => Notify(ErrorNotice)
    case Answered(_, body) =>
      if body.visitorExists then
        if |body.sessions| == 0 then Notify(ErrorNotice) else SetDocuments(body.sessions[0].documents)
      else CreateSession
  }

  /** No handler looks at the response's `ok` flag: only the parsed body counts. */
  lemma StatusFlagIgnored(cookies: string, v: VisitorBody, s: seq<Session>)
    ensures OnGetVisitor(cookies, Answered(true, v)) == OnGetVisitor(cookies, Answered(false, v))
    ensures OnRegisterVisitor(cookies, Answered(true, v)) == OnRegisterVisitor(cookies, Answered(false, v))
    ensures OnCreateSession(cookies, Answered(true, s)) == OnCreateSession(cookies, Answered(false, s))
    ensures OnGetSession(Answered(true, v)) == OnGetSession(Answered(false, v))
  {
  }
}
