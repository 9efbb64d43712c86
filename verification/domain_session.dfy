/** The session record and the per-request context value.

    `domain.Session` (the type of the wired session service) and
    `domain.UserSession` (the type of the legacy one) carry the same five
    fields; they are one record here. What tells them apart is the Go type a
    gate stores in the request context under `middleware.UserKey`, and that
    is what `CtxValue` records: a business function's type assertion
    succeeds only for the variant it names. */
module DomainSession {
  import opened Results
  import opened Uuids
  import opened DomainUser

  datatype Session = Session(token: string, name: string, userId: Uuid, email: string, avatarUrl: string)

  /** The record the session repositories store for `u` with `token`. */
  function SessionOf(u: User, token: string): (s: Session)
    ensures s.token == token && s.userId == u.id
    ensures s.name == u.name && s.email == u.email && s.avatarUrl == u.avatarUrl
  {
    Session(token, u.name, u.id, u.email, u.avatarUrl)
  }

  /** `UserSession.ToResponse`. */
  function SessionResponse(s: Session): (r: UserResponse)
    ensures Parse(r.id) == Ok(s.userId)
    ensures r.name == s.name && r.email == s.email && r.avatarUrl == s.avatarUrl
  {
    ParseFormat(s.userId);
    UserResponse(Format(s.userId), s.name, s.email, s.avatarUrl)
  }

  /** The value under `UserKey`: nothing, a `*domain.Session`, a
      `*domain.UserSession` or a `*domain.UserResponse`. */
  datatype CtxValue =
    | NoValue
    | SessionRef(session: Session)
    | UserSessionRef(userSession: Session)
    | UserResponseRef(response: UserResponse)

  /** `ctx.Value(UserKey).(*domain.Session)` with its `ok && != nil` check. */
  function AsSession(v: CtxValue): (r: Option<Session>)
    ensures r.Some? <==> v.SessionRef?
    ensures r.Some? ==> r.value == v.session
  {
    if v.SessionRef? then Some(v.session) else None
  }

  /** `ctx.Value(UserKey).(*domain.UserSession)`. */
  function AsUserSession(v: CtxValue): (r: Option<Session>)
    ensures r.Some? <==> v.UserSessionRef?
    ensures r.Some? ==> r.value == v.userSession
  {
    if v.UserSessionRef? then Some(v.userSession) else None
  }

  /** `ctx.Value(UserKey).(*domain.UserResponse)`. */
  function AsUserResponse(v: CtxValue): (r: Option<UserResponse>)
    ensures r.Some? <==> v.UserResponseRef?
    ensures r.Some? ==> r.value == v.response
  {
    if v.UserResponseRef? then Some(v.response) else None
  }
}
