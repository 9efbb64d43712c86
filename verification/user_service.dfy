/** service/user.go and the confirmation-code sender it relies on
    (`SendConfirmationCode` of service/email.go): sign-up, sign-in, rename,
    password change and code resend, each a short chain of guarded returns.

    The user table, the password hasher, the mail client and the one-time
    code generator are not modelled; what they answer is an input
    (`Backend`, `code`). Each operation returns its outcome, the Redis state
    it leaves and the ordered list of the external calls it made, so that
    "nothing was written" and "the session was not touched" can be
    stated. */
module UserService {
  import opened Results
  import opened Uuids
  import opened DomainUser
  import opened DomainSession
  import opened RedisStore
  import opened Jwt
  import Repo = SessionRepository
  import Wired = SessionService

  /** The answers of the collaborators: `GetByEmail`, `GetByID`,
      `secure.Hash`, whether `secure.CheckPassword(hash, password)` accepts,
      the outcome of the one SQL write an operation makes, and the outcome
      of rendering and sending a mail. */
  datatype Backend = Backend(
    byEmail: string -> Lookup<User>,
    byId: Uuid -> Lookup<User>,
    hash: string -> Result<string>,
    passwordMatches: (string, string) -> bool,
    write: Outcome,
    mail: Outcome)

  datatype Call =
    | FindByEmail(email: string)
    | FindById(id: Uuid)
    | Hash(password: string)
    | CheckPassword(hash: string, password: string)
    | InsertUser(user: User)
    | RenameUser(id: Uuid, name: string)
    | SetPasswordHash(id: Uuid, hash: string)
    | CreateSession(user: User)
    | RefreshSession
    | SaveCode(email: string, code: string)
    | SendMail(email: string)

  datatype Effect = Effect(outcome: Outcome, store: Redis, calls: seq<Call>)

  /** `SignIn` can hand out a token and an error together. */
  datatype SignInReply = SignInReply(token: Option<string>, error: Option<Error>, store: Redis, calls: seq<Call>)

  /** `SendConfirmationCode`: generate a code, save it under the user's
      email, then mail it. The code is saved before the mail goes out, so a
      mail failure leaves the new code in place. */
  function SendConfirmationCode(b: Backend, r: Redis, cfg: Repo.Settings, u: User, code: Result<string>): (e: Effect)
    requires Valid(r)
    ensures code.Err? ==> e == Effect(Fail(code.error), r, [])
    ensures e.outcome.Pass? <==> code.Ok? && r.up && b.mail.Pass?
    ensures code.Ok? && r.up ==>
      && e.calls == [SaveCode(u.email, code.value), SendMail(u.email)]
      && e.outcome == b.mail
      && Repo.GetOTP(e.store, u.email) == Ok(code.value)
    ensures code.Ok? && !r.up ==> e == Effect(Fail(External(RedisTransport)), r, [SaveCode(u.email, code.value)])
  {
    match code
    case Err(err) => Effect(Fail(err), r, [])
    case Ok(otp) =>
      match Wired.SaveOTP(r, cfg, u.email, otp)
      case Err(err) => Effect(Fail(err), r, [SaveCode(u.email, otp)])
      case Ok(r') => Effect(b.mail, r', [SaveCode(u.email, otp), SendMail(u.email)])
  }

  /** `Create` (sign-up): refuse a taken email before hashing, then hash,
      then insert the new account. `id` and `now` are `uuid.New()` and
      `time.Now()`. */
  function Create(b: Backend, r: Redis, p: UserPayload, id: Uuid, now: Instant): (e: Effect)
    ensures e.store == r
    ensures |e.calls| >= 1 && e.calls[0] == FindByEmail(p.email)
    ensures b.byEmail(p.email).Found? ==> e.outcome == Fail(ErrUserAlreadyExists) && e.calls == [FindByEmail(p.email)]
    ensures b.byEmail(p.email).Failed? ==> e.outcome == Fail(b.byEmail(p.email).error) && e.calls == [FindByEmail(p.email)]
    ensures b.byEmail(p.email).Missing? && b.hash(p.password).Err? ==>
      e.outcome == Fail(ErrHashingPassword) && e.calls == [FindByEmail(p.email), Hash(p.password)]
    ensures e.outcome.Pass? <==> b.byEmail(p.email).Missing? && b.hash(p.password).Ok? && b.write.Pass?
    ensures forall c :: c in e.calls && c.InsertUser? ==>
      && b.hash(p.password).Ok?
      && c.user == ToUser(p, b.hash(p.password).value, id, now)
  {
    var found := [FindByEmail(p.email)];
    match b.byEmail(p.email)
    case Failed(err) => Effect(Fail(err), r, found)
    case Found(_) => Effect(Fail(ErrUserAlreadyExists), r, found)
    case Missing =>
      var hashed := found + [Hash(p.password)];
      match b.hash(p.password)
      case Err(_) => Effect(Fail(ErrHashingPassword), r, hashed)
      case Ok(h) => Effect(b.write, r, hashed + [InsertUser(ToUser(p, h, id, now))])
  }

  /** Sign-up is not repeatable: once a `Create` has inserted its row, a
      user table that answers that row for the email refuses a second
      sign-up with the same email before hashing, and inserts nothing. */
  lemma CreateTwiceRefused(b: Backend, r: Redis, p: UserPayload, id: Uuid, now: Instant, q: UserPayload, id2: Uuid, now2: Instant)
    requires Create(b, r, p, id, now).outcome.Pass?
    requires q.email == p.email
    ensures var first := Create(b, r, p, id, now);
      && first.calls[|first.calls| - 1].InsertUser?
      && var u := first.calls[|first.calls| - 1].user;
      && u.email == p.email
      && var b' := b.(byEmail := e => if e == u.email then Found(u) else b.byEmail(e));
      && Create(b', r, q, id2, now2) == Effect(Fail(ErrUserAlreadyExists), r, [FindByEmail(q.email)])
  {
  }

  /** `SignIn`: find the account, check the password, create the session,
      and only then look at email confirmation. An unconfirmed user gets a
      fresh code mailed and the token together with
      `ErrEmailNotConfirmed`. */
  function SignIn(b: Backend, c: Codec, r: Redis, cfg: Repo.Settings, p: SignInPayload, entropy: Option<nat>, code: Result<string>): (s: SignInReply)
    requires Lawful(c) && Valid(r)
    ensures |s.calls| >= 1 && s.calls[0] == FindByEmail(p.email)
    ensures b.byEmail(p.email).Missing? ==> s == SignInReply(None, Some(ErrUserNotFound), r, [FindByEmail(p.email)])
    ensures b.byEmail(p.email).Found? && !b.passwordMatches(b.byEmail(p.email).row.passwordHash, p.password) ==>
      s.token.None? && s.error == Some(ErrInvalidPassword) && s.store == r
      && forall k :: k in s.calls ==> !k.CreateSession?
    ensures s.token.Some? ==>
      && b.byEmail(p.email).Found?
      && b.passwordMatches(b.byEmail(p.email).row.passwordHash, p.password)
      && Wired.GetUser(c, s.store, s.token.value) == Ok(SessionOf(b.byEmail(p.email).row, s.token.value))
    ensures s.token.Some? && s.error.Some? ==> s.error == Some(ErrEmailNotConfirmed) && !b.byEmail(p.email).row.emailConfirmed
    ensures s.token.Some? && s.error.None? ==> b.byEmail(p.email).row.emailConfirmed
    ensures s.token.None? ==> s.error.Some?
    ensures b.byEmail(p.email).Failed? ==> s == SignInReply(None, Some(b.byEmail(p.email).error), r, [FindByEmail(p.email)])
    ensures b.byEmail(p.email).Found? && b.passwordMatches(b.byEmail(p.email).row.passwordHash, p.password) && !(entropy.Some? && r.up) ==>
      && s.token.None? && s.store == r
      && s.error == Some(Wired.Create(c, r, cfg, b.byEmail(p.email).row, entropy).error)
    ensures b.byEmail(p.email).Found? && b.passwordMatches(b.byEmail(p.email).row.passwordHash, p.password) && entropy.Some? && r.up ==>
      var issued := Wired.Create(c, r, cfg, b.byEmail(p.email).row, entropy).value;
      && (b.byEmail(p.email).row.emailConfirmed ==> s == SignInReply(Some(issued.token), None, issued.store, s.calls))
      && (!b.byEmail(p.email).row.emailConfirmed ==> (s.token.Some? <==> code.Ok? && b.mail.Pass?))
      && (!b.byEmail(p.email).row.emailConfirmed && code.Ok? && b.mail.Pass? ==>
            s.token == Some(issued.token) && s.error == Some(ErrEmailNotConfirmed))
      && (!b.byEmail(p.email).row.emailConfirmed && !(code.Ok? && b.mail.Pass?) ==>
            s.error == Some(SendConfirmationCode(b, issued.store, cfg, b.byEmail(p.email).row, code).outcome.error))
  {
    var found := [FindByEmail(p.email)];
    match b.byEmail(p.email)
    case Failed(err) => SignInReply(None, Some(err), r, found)
    case Missing => SignInReply(None, Some(ErrUserNotFound), r, found)
    case Found(u) =>
      var checked := found + [CheckPassword(u.passwordHash, p.password)];
      if !b.passwordMatches(u.passwordHash, p.password) then SignInReply(None, Some(ErrInvalidPassword), r, checked)
      else
        var created := checked + [CreateSession(u)];
        match Wired.Create(c, r, cfg, u, entropy)
        case Err(err) => SignInReply(None, Some(err), r, created)
        case Ok(issued) =>
          Wired.CreateThenGetUser(c, r, cfg, u, entropy.value);
          if u.emailConfirmed then SignInReply(Some(issued.token), None, issued.store, created)
          else
            var sent := SendConfirmationCode(b, issued.store, cfg, u, code);
            match sent.outcome
            case Fail(err) => SignInReply(None, Some(err), sent.store, created + sent.calls)
            case Pass =>
              OtpSaveKeepsSession(c, issued.store, cfg, u, code.value, issued.token);
              SignInReply(Some(issued.token), Some(ErrEmailNotConfirmed), sent.store, created + sent.calls)
  }

  /** Saving a code does not disturb a session: the keys differ. */
  lemma OtpSaveKeepsSession(c: Codec, r: Redis, cfg: Repo.Settings, u: User, otp: string, token: string)
    requires Valid(r) && r.up
    requires Wired.GetUser(c, r, token) == Ok(SessionOf(u, token))
    ensures Wired.SaveOTP(r, cfg, u.email, otp).Ok?
    ensures Wired.GetUser(c, Wired.SaveOTP(r, cfg, u.email, otp).value, token) == Ok(SessionOf(u, token))
  {
    var id := Wired.ExtractUserId(c, token).value;
    Repo.KeySpacesDisjoint(id, u.email);
  }

  /** A failed password check leaves the user's current session alone: the
      token the user already holds keeps working. */
  lemma WrongPasswordKeepsSession(b: Backend, c: Codec, r: Redis, cfg: Repo.Settings, p: SignInPayload, entropy: Option<nat>, code: Result<string>, held: string)
    requires Lawful(c) && Valid(r)
    requires b.byEmail(p.email).Found? && !b.passwordMatches(b.byEmail(p.email).row.passwordHash, p.password)
    ensures SignIn(b, c, r, cfg, p, entropy, code).error == Some(ErrInvalidPassword)
    ensures Wired.GetUser(c, SignIn(b, c, r, cfg, p, entropy, code).store, held) == Wired.GetUser(c, r, held)
  {
  }

  /** With the right password the session is created before confirmation
      is looked at: an unconfirmed user whose code cannot be mailed gets no
      token, yet the session of the token held before is already
      replaced. */
  lemma {:induction false} UnconfirmedMailFailureRevokes(b: Backend, c: Codec, r: Redis, cfg: Repo.Settings, p: SignInPayload, n1: nat, n2: nat, code: string)
    requires Lawful(c) && Valid(r) && r.up && n1 != n2
    requires b.byEmail(p.email).Found? && !b.byEmail(p.email).row.emailConfirmed
    requires b.passwordMatches(b.byEmail(p.email).row.passwordHash, p.password)
    requires b.mail.Fail?
    ensures Wired.Create(c, r, cfg, b.byEmail(p.email).row, Some(n1)).Ok?
    ensures
      var held := Wired.Create(c, r, cfg, b.byEmail(p.email).row, Some(n1)).value;
      var s := SignIn(b, c, held.store, cfg, p, Some(n2), Ok(code));
      && s.token.None? && s.error == Some(b.mail.error)
      && Wired.GetUser(c, s.store, held.token) == Err(ErrTokenInvalid)
  {
    var u := b.byEmail(p.email).row;
    var held := Wired.Create(c, r, cfg, u, Some(n1)).value;
    Wired.SecondCreateRevokesFirst(c, r, cfg, u, n1, n2);
    var second := Wired.Create(c, held.store, cfg, u, Some(n2)).value;
    var s := SignIn(b, c, held.store, cfg, p, Some(n2), Ok(code));
    assert s.store == Wired.SaveOTP(second.store, cfg, u.email, code).value;
    var id := Wired.ExtractUserId(c, held.token).value;
    Wired.ExtractIssued(c, u, n1);
    Repo.KeySpacesDisjoint(u.id, u.email);
    assert Repo.GetUser(s.store, Format(id)) == Repo.GetUser(second.store, Format(id));
  }

  /** `CheckEmailConfirmation`. */
  function CheckEmailConfirmation(b: Backend, email: string): (o: Outcome)
    ensures o.Pass? <==> b.byEmail(email).Found? && b.byEmail(email).row.emailConfirmed
    ensures b.byEmail(email).Missing? ==> o == Fail(ErrUserNotFound)
    ensures b.byEmail(email).Found? && !b.byEmail(email).row.emailConfirmed ==> o == Fail(ErrEmailNotConfirmed)
    ensures b.byEmail(email).Failed? ==> o == Fail(b.byEmail(email).error)
  {
    match b.byEmail(email)
    case Failed(err) => Fail(err)
    case Missing => Fail(ErrUserNotFound)
    case Found(u) => if !u.emailConfirmed then Fail(ErrEmailNotConfirmed) else Pass
  }

  /** Once the password is right and the session is stored, sign-in
      reports no error exactly when `CheckEmailConfirmation` passes for the
      same email. */
  lemma SignInErrorFreeIffConfirmed(b: Backend, c: Codec, r: Redis, cfg: Repo.Settings, p: SignInPayload, entropy: Option<nat>, code: Result<string>)
    requires Lawful(c) && Valid(r) && r.up && entropy.Some?
    requires b.byEmail(p.email).Found? && b.passwordMatches(b.byEmail(p.email).row.passwordHash, p.password)
    ensures SignIn(b, c, r, cfg, p, entropy, code).error.None? <==> CheckEmailConfirmation(b, p.email).Pass?
  {
  }

  /** `UpdateName` as written: session from the context, same-name guard,
      row update, then the session service's `Update` as written, which
      panics for a vanished user row and writes a session that has expired
      meanwhile back with no expiry. A failed row update skips the
      refresh. */
  function UpdateNameAsWritten(b: Backend, r: Redis, ctx: CtxValue, name: string): (e: Effect)
    requires Valid(r)
    ensures !ctx.SessionRef? ==> e == Effect(Fail(ErrUserNotFoundInContext), r, [])
    ensures ctx.SessionRef? && ctx.session.name == name ==> e == Effect(Fail(ErrNameIsSame), r, [])
    ensures ctx.SessionRef? && ctx.session.name != name && b.write.Fail? ==>
      e == Effect(b.write, r, [RenameUser(ctx.session.userId, name)])
    ensures e.outcome.Pass? <==>
      ctx.SessionRef? && ctx.session.name != name && b.write.Pass? && Wired.UpdateAsWritten(r, ctx, b.byId(ctx.session.userId)).Ok?
    ensures e.outcome.Pass? ==>
      && e.calls == [RenameUser(ctx.session.userId, name), RefreshSession]
      && Ok(e.store) == Wired.UpdateAsWritten(r, ctx, b.byId(ctx.session.userId))
    ensures e.outcome.Fail? ==> e.store == r
  {
    match AsSession(ctx)
    case None => Effect(Fail(ErrUserNotFoundInContext), r, [])
    case Some(s) =>
      if s.name == name then Effect(Fail(ErrNameIsSame), r, [])
      else
        var renamed := [RenameUser(s.userId, name)];
        match b.write
        case Fail(err) => Effect(Fail(err), r, renamed)
        case Pass =>
          match Wired.UpdateAsWritten(r, ctx, b.byId(s.userId))
          case Err(err) => Effect(Fail(err), r, renamed + [RefreshSession])
          case Ok(r') => Effect(Pass, r', renamed + [RefreshSession])
  }

  /** `UpdateName` on the corrected refresh: a vanished user row is
      `ErrUserNotFound` and an expired session is `ErrSessionNotFound`. */
  function UpdateName(b: Backend, r: Redis, ctx: CtxValue, name: string): (e: Effect)
    requires Valid(r)
    ensures !ctx.SessionRef? ==> e == Effect(Fail(ErrUserNotFoundInContext), r, [])
    ensures ctx.SessionRef? && ctx.session.name == name ==> e == Effect(Fail(ErrNameIsSame), r, [])
    ensures ctx.SessionRef? && ctx.session.name != name && b.write.Fail? ==>
      e == Effect(b.write, r, [RenameUser(ctx.session.userId, name)])
    ensures e.outcome.Pass? <==>
      ctx.SessionRef? && ctx.session.name != name && b.write.Pass? && Wired.Update(r, ctx, b.byId(ctx.session.userId)).Ok?
    ensures e.outcome.Pass? ==>
      && e.calls == [RenameUser(ctx.session.userId, name), RefreshSession]
      && Ok(e.store) == Wired.Update(r, ctx, b.byId(ctx.session.userId))
    ensures e.outcome.Fail? ==> e.store == r
  {
    match AsSession(ctx)
    case None => Effect(Fail(ErrUserNotFoundInContext), r, [])
    case Some(s) =>
      if s.name == name then Effect(Fail(ErrNameIsSame), r, [])
      else
        var renamed := [RenameUser(s.userId, name)];
        match b.write
        case Fail(err) => Effect(Fail(err), r, renamed)
        case Pass =>
          match Wired.Update(r, ctx, b.byId(s.userId))
          case Err(err) => Effect(Fail(err), r, renamed + [RefreshSession])
          case Ok(r') => Effect(Pass, r', renamed + [RefreshSession])
  }

  /** A rename for a session whose user row has vanished: the code as
      written panics after the row update, the corrected code reports
      `ErrUserNotFound`; neither touches Redis. */
  lemma UpdateNameVanishedUser(b: Backend, r: Redis, s: Session, name: string)
    requires Valid(r) && s.name != name && b.write.Pass? && b.byId(s.userId).Missing?
    ensures UpdateNameAsWritten(b, r, SessionRef(s), name) ==
      Effect(Fail(NilDereference), r, [RenameUser(s.userId, name), RefreshSession])
    ensures UpdateName(b, r, SessionRef(s), name) ==
      Effect(Fail(ErrUserNotFound), r, [RenameUser(s.userId, name), RefreshSession])
  {
  }

  /** A rename whose session has expired before the refresh: the code as
      written succeeds and stores the session again with no expiry, so it
      answers after any time has passed; the corrected code reports
      `ErrSessionNotFound`. */
  lemma UpdateNameExpiredSession(b: Backend, r: Redis, s: Session, name: string, dt: nat)
    requires Valid(r) && r.up && s.name != name && b.write.Pass?
    requires b.byId(s.userId).Found? && b.byId(s.userId).row.id == s.userId
    requires Repo.TokenKey(Format(s.userId)) !in r.data
    ensures UpdateNameAsWritten(b, r, SessionRef(s), name).outcome.Pass?
    ensures Repo.GetUser(Tick(UpdateNameAsWritten(b, r, SessionRef(s), name).store, dt), Format(s.userId)) ==
      Ok(SessionOf(b.byId(s.userId).row, s.token))
    ensures UpdateName(b, r, SessionRef(s), name).outcome == Fail(ErrSessionNotFound)
  {
    Repo.UpdateAsWrittenResurrects(r, b.byId(s.userId).row, s.token, dt);
  }

  /** While the session is live and its user row exists, the code as
      written and the corrected code do the same thing. */
  lemma UpdateNameAgreesOnLiveSession(b: Backend, r: Redis, s: Session, name: string)
    requires Valid(r) && r.up && b.byId(s.userId).Found? && b.byId(s.userId).row.id == s.userId
    requires Repo.TokenKey(Format(s.userId)) in r.data
    ensures UpdateNameAsWritten(b, r, SessionRef(s), name) == UpdateName(b, r, SessionRef(s), name)
  {
    Repo.UpdateKeepsLifetime(r, b.byId(s.userId).row, s.token, 0);
  }

  /** The tail both password changes share once the user row is in hand:
      old password check, same-password guard, hash, row update, session
      refresh (which reads the context on its own). */
  function ChangePassword(b: Backend, r: Redis, ctx: CtxValue, id: Uuid, u: User, p: UpdatePasswordPayload, calls: seq<Call>): (e: Effect)
    requires Valid(r)
    ensures e.outcome.Fail? ==> e.store == r
    ensures !b.passwordMatches(u.passwordHash, p.oldPassword) ==>
      e == Effect(Fail(ErrInvalidOldPassword), r, calls + [CheckPassword(u.passwordHash, p.oldPassword)])
    ensures b.passwordMatches(u.passwordHash, p.oldPassword) && p.oldPassword == p.newPassword ==>
      e.outcome == Fail(ErrPasswordIsSame)
    ensures e.outcome.Pass? <==>
      && b.passwordMatches(u.passwordHash, p.oldPassword)
      && p.oldPassword != p.newPassword
      && b.hash(p.newPassword).Ok?
      && b.write.Pass?
      && Wired.Update(r, ctx, b.byId(id)).Ok?
    ensures |e.calls| > |calls| && e.calls[..|calls|] == calls
    ensures forall k :: k in e.calls[|calls|..] && k.SetPasswordHash? ==>
      b.hash(p.newPassword).Ok? && k == SetPasswordHash(id, b.hash(p.newPassword).value) && p.oldPassword != p.newPassword
  {
    var checked := calls + [CheckPassword(u.passwordHash, p.oldPassword)];
    if !b.passwordMatches(u.passwordHash, p.oldPassword) then Effect(Fail(ErrInvalidOldPassword), r, checked)
    else if p.oldPassword == p.newPassword then Effect(Fail(ErrPasswordIsSame), r, checked)
    else
      var hashed := checked + [Hash(p.newPassword)];
      match b.hash(p.newPassword)
      case Err(_) => Effect(Fail(ErrHashingPassword), r, hashed)
      case Ok(h) =>
        var written := hashed + [SetPasswordHash(id, h)];
        match b.write
        case Fail(err) => Effect(Fail(err), r, written)
        case Pass =>
          match Wired.Update(r, ctx, b.byId(id))
          case Err(err) => Effect(Fail(err), r, written + [RefreshSession])
          case Ok(r') => Effect(Pass, r', written + [RefreshSession])
  }

  /** `UpdatePassword` as written: it asserts the context value to a
      `*domain.UserResponse`, parses its id, and dereferences the row
      `GetByID` returns without a nil check. */
  function UpdatePasswordAsWritten(b: Backend, r: Redis, ctx: CtxValue, p: UpdatePasswordPayload): (e: Effect)
    requires Valid(r)
    ensures !ctx.UserResponseRef? ==> e == Effect(Fail(ErrUserNotFoundInContext), r, [])
    ensures ctx.UserResponseRef? && Parse(ctx.response.id).Err? ==> e == Effect(Fail(ErrInvalidUuid), r, [])
    ensures ctx.UserResponseRef? && Parse(ctx.response.id).Ok? && b.byId(Parse(ctx.response.id).value).Missing? ==>
      e == Effect(Fail(NilDereference), r, [FindById(Parse(ctx.response.id).value)])
    ensures e.outcome.Fail? ==> e.store == r
  {
    match AsUserResponse(ctx)
    case None => Effect(Fail(ErrUserNotFoundInContext), r, [])
    case Some(resp) =>
      match Parse(resp.id)
      case Err(err) => Effect(Fail(err), r, [])
      case Ok(id) =>
        var looked := [FindById(id)];
        match b.byId(id)
        case Failed(err) => Effect(Fail(err), r, looked)
        case Missing => Effect(Fail(NilDereference), r, looked)
        case Found(u) => ChangePassword(b, r, ctx, id, u, p, looked)
  }

  /** As written, a password change never succeeds: behind the login gate
      the context holds a `*domain.Session` and the very first check fails;
      with a `*domain.UserResponse` there, the final session refresh,
      which wants a `*domain.Session`, fails after the new hash has been
      written. */
  lemma UpdatePasswordAsWrittenNeverPasses(b: Backend, r: Redis, ctx: CtxValue, p: UpdatePasswordPayload)
    requires Valid(r)
    ensures UpdatePasswordAsWritten(b, r, ctx, p).outcome.Fail?
    ensures ctx.SessionRef? ==> UpdatePasswordAsWritten(b, r, ctx, p).outcome == Fail(ErrUserNotFoundInContext)
  {
  }

  /** `UpdatePassword` reading the session the login gate attaches, with
      a missing row reported as `ErrUserNotFound`. */
  function UpdatePassword(b: Backend, r: Redis, ctx: CtxValue, p: UpdatePasswordPayload): (e: Effect)
    requires Valid(r)
    ensures !ctx.SessionRef? ==> e == Effect(Fail(ErrUserNotFoundInContext), r, [])
    ensures ctx.SessionRef? && b.byId(ctx.session.userId).Missing? ==>
      e == Effect(Fail(ErrUserNotFound), r, [FindById(ctx.session.userId)])
    ensures ctx.SessionRef? && b.byId(ctx.session.userId).Failed? ==>
      e == Effect(Fail(b.byId(ctx.session.userId).error), r, [FindById(ctx.session.userId)])
    ensures ctx.SessionRef? && b.byId(ctx.session.userId).Found? ==>
      e == ChangePassword(b, r, ctx, ctx.session.userId, b.byId(ctx.session.userId).row, p, [FindById(ctx.session.userId)])
    ensures e.outcome.Fail? ==> e.store == r
  {
    match AsSession(ctx)
    case None => Effect(Fail(ErrUserNotFoundInContext), r, [])
    case Some(s) =>
      var looked := [FindById(s.userId)];
      match b.byId(s.userId)
      case Failed(err) => Effect(Fail(err), r, looked)
      case Missing => Effect(Fail(ErrUserNotFound), r, looked)
      case Found(u) => ChangePassword(b, r, ctx, s.userId, u, p, looked)
  }

  /** The corrected password change goes through behind the login gate
      when every collaborator agrees, and a wrong old password is reported
      as such even when the new password equals it. */
  lemma UpdatePasswordBehindGate(b: Backend, r: Redis, s: Session, p: UpdatePasswordPayload)
    requires Valid(r) && r.up && b.byId(s.userId).Found?
    requires Repo.TokenKey(Format(s.userId)) in r.data && b.byId(s.userId).row.id == s.userId
    ensures !b.passwordMatches(b.byId(s.userId).row.passwordHash, p.oldPassword) ==>
      UpdatePassword(b, r, SessionRef(s), p).outcome == Fail(ErrInvalidOldPassword)
    ensures
      && b.passwordMatches(b.byId(s.userId).row.passwordHash, p.oldPassword)
      && p.oldPassword != p.newPassword && b.hash(p.newPassword).Ok? && b.write.Pass? ==>
      UpdatePassword(b, r, SessionRef(s), p).outcome == Pass
  {
  }

  /** `GetUserInfo`: the public view of the session in the context. */
  function GetUserInfo(ctx: CtxValue): (res: Result<UserResponse>)
    ensures res.Ok? <==> ctx.SessionRef?
    ensures res.Err? ==> res.error == ErrUserNotFoundInContext
    ensures res.Ok? ==> Parse(res.value.id) == Ok(ctx.session.userId) && res.value.email == ctx.session.email
  {
    match AsSession(ctx)
    case None => Err(ErrUserNotFoundInContext)
    case Some(s) => Ok(SessionResponse(s))
  }

  /** Whose code is resent: the session's email when the context holds a
      `*domain.Session`, the payload's otherwise. */
  function ResendTarget(ctx: CtxValue, p: ResendCodePayload): (email: string)
    ensures ctx.SessionRef? ==> email == ctx.session.email
    ensures !ctx.SessionRef? ==> email == p.email
  {
    match AsSession(ctx)
    case Some(s) => s.email
    case None => p.email
  }

  /** `ResendCode` as written: an email with no account comes back from
      `GetByEmail` as a nil pointer with no error, and `*user` panics. */
  function ResendCodeAsWritten(b: Backend, r: Redis, cfg: Repo.Settings, ctx: CtxValue, p: ResendCodePayload, code: Result<string>): (e: Effect)
    requires Valid(r)
    ensures |e.calls| >= 1 && e.calls[0] == FindByEmail(ResendTarget(ctx, p))
    ensures b.byEmail(ResendTarget(ctx, p)).Missing? ==> e == Effect(Fail(NilDereference), r, [FindByEmail(ResendTarget(ctx, p))])
    ensures b.byEmail(ResendTarget(ctx, p)).Found? ==>
      e.outcome == SendConfirmationCode(b, r, cfg, b.byEmail(ResendTarget(ctx, p)).row, code).outcome
  {
    var email := ResendTarget(ctx, p);
    match b.byEmail(email)
    case Failed(err) => Effect(Fail(err), r, [FindByEmail(email)])
    case Missing => Effect(Fail(NilDereference), r, [FindByEmail(email)])
    case Found(u) =>
      var sent := SendConfirmationCode(b, r, cfg, u, code);
      Effect(sent.outcome, sent.store, [FindByEmail(email)] + sent.calls)
  }

  /** `ResendCode` with the unknown email reported as `ErrUserNotFound`:
      nothing is saved and nothing is mailed. */
  function ResendCode(b: Backend, r: Redis, cfg: Repo.Settings, ctx: CtxValue, p: ResendCodePayload, code: Result<string>): (e: Effect)
    requires Valid(r)
    ensures |e.calls| >= 1 && e.calls[0] == FindByEmail(ResendTarget(ctx, p))
    ensures b.byEmail(ResendTarget(ctx, p)).Missing? ==> e == Effect(Fail(ErrUserNotFound), r, [FindByEmail(ResendTarget(ctx, p))])
    ensures e.outcome.Pass? <==> b.byEmail(ResendTarget(ctx, p)).Found? && code.Ok? && r.up && b.mail.Pass?
    ensures e.outcome.Pass? ==>
      && var u := b.byEmail(ResendTarget(ctx, p)).row;
      && e.calls[1..] == [SaveCode(u.email, code.value), SendMail(u.email)]
      && Repo.GetOTP(e.store, u.email) == Ok(code.value)
  {
    var email := ResendTarget(ctx, p);
    match b.byEmail(email)
    case Failed(err) => Effect(Fail(err), r, [FindByEmail(email)])
    case Missing => Effect(Fail(ErrUserNotFound), r, [FindByEmail(email)])
    case Found(u) =>
      var sent := SendConfirmationCode(b, r, cfg, u, code);
      Effect(sent.outcome, sent.store, [FindByEmail(email)] + sent.calls)
  }

  /** The route is not behind `CheckLoggedIn`, so the context is empty and
      the payload's email is looked up. With no account under it, the
      handler as written panics on the nil user, while the corrected one
      answers `ErrUserNotFound`; neither writes a code or sends mail. */
  lemma ResendUnknownEmail(r: Redis, cfg: Repo.Settings, email: string, code: Result<string>)
    requires Valid(r)
    ensures
      var b := Backend(_ => Missing, _ => Missing, _ => Err(ErrHashingPassword), (_, _) => false, Pass, Pass);
      && ResendCodeAsWritten(b, r, cfg, NoValue, ResendCodePayload(email), code) == Effect(Fail(NilDereference), r, [FindByEmail(email)])
      && ResendCode(b, r, cfg, NoValue, ResendCodePayload(email), code) == Effect(Fail(ErrUserNotFound), r, [FindByEmail(email)])
  {
  }
}
