/** service/session.go: the session service wired into the application.
    It signs a token for a user and stores the session under the user's id
    (one session per user, so a new sign-in replaces the old token), and it
    resolves a presented token back to the stored session, accepting it only
    when it is the very token stored. */
module SessionService {
  import opened Results
  import opened Uuids
  import opened DomainUser
  import opened DomainSession
  import opened RedisStore
  import opened Jwt
  import opened TokenUtil
  import Repo = SessionRepository

  /** A token handed out together with the store that now holds its
      session. */
  datatype Issued = Issued(token: string, store: Redis)

  /** `Create`: sign with the private key loaded at start-up, then store.
      Either failure leaves the store as it was and yields no token. */
  function Create(c: Codec, r: Redis, cfg: Repo.Settings, u: User, entropy: Option<nat>): (res: Result<Issued>)
    requires Lawful(c) && Valid(r)
    ensures res.Ok? <==> entropy.Some? && r.up
    ensures entropy.None? ==> res == Err(External(Signer))
    ensures entropy.Some? && !r.up ==> res == Err(External(RedisTransport))
    ensures res.Ok? ==> res.value.token != [] && ' ' !in res.value.token
    ensures res.Ok? ==> c.decode(res.value.token) == Some(Token(ES256, IssuedClaims(u), entropy.value, true))
    ensures res.Ok? ==> Repo.Create(r, cfg, u, res.value.token) == Ok(res.value.store)
  {
    var token :- Sign(c, IssuedClaims(u), entropy);
    var r' :- Repo.Create(r, cfg, u, token);
    Ok(Issued(token, r'))
  }

  /** `extractSessionFromToken`, as far as its result is used: the user id
      of an unverified token. The signature is not looked at; a missing or
      non-string `id` claim, or one that is not a UUID, is
      `ErrTokenInvalid`. */
  function ExtractUserId(c: Codec, text: string): (res: Result<Uuid>)
    ensures c.decode(text).None? ==> res == Err(External(TokenParse))
    ensures res.Ok? <==>
      && c.decode(text).Some?
      && "id" in c.decode(text).value.claims
      && c.decode(text).value.claims["id"].Str?
      && Parse(c.decode(text).value.claims["id"].s).Ok?
    ensures res.Ok? ==> Parse(c.decode(text).value.claims["id"].s) == Ok(res.value)
    ensures c.decode(text).Some? && res.Err? ==> res == Err(ErrTokenInvalid)
  {
    var t :- ParseUnverified(c, text);
    if "id" in t.claims && t.claims["id"].Str? then
      match Parse(t.claims["id"].s)
      case Ok(id) => Ok(id)
      case Err(_) => Err(ErrTokenInvalid)
    else Err(ErrTokenInvalid)
  }

  /** Extraction gives back the id of any token this service issued. */
  lemma ExtractIssued(c: Codec, u: User, n: nat)
    requires Lawful(c)
    ensures Sign(c, IssuedClaims(u), Some(n)).Ok?
    ensures ExtractUserId(c, Sign(c, IssuedClaims(u), Some(n)).value) == Ok(u.id)
  {
    ParseFormat(u.id);
  }

  /** Extraction does not look at the signature or the method: a token
      with a broken signature or another method yields the same id. */
  lemma ExtractIgnoresSignature(c: Codec, t: Token, alg: Method)
    requires Lawful(c)
    ensures ExtractUserId(c, c.encode(t.(signatureValid := false, alg := alg))).Ok? <==>
      ExtractUserId(c, c.encode(t)).Ok?
    ensures ExtractUserId(c, c.encode(t)).Ok? ==>
      ExtractUserId(c, c.encode(t.(signatureValid := false, alg := alg))) == ExtractUserId(c, c.encode(t))
  {
  }

  /** `GetUser`: extract the id, look up its session, and accept the token
      only when it is the one stored there. */
  function GetUser(c: Codec, r: Redis, token: string): (res: Result<Session>)
    ensures ExtractUserId(c, token).Err? ==> res == Err(ExtractUserId(c, token).error)
    ensures ExtractUserId(c, token).Ok? && r.up && Repo.TokenKey(Format(ExtractUserId(c, token).value)) !in r.data ==>
      res == Err(ErrSessionNotFound)
    ensures ExtractUserId(c, token).Ok? && Repo.GetUser(r, Format(ExtractUserId(c, token).value)).Err? ==>
      res == Repo.GetUser(r, Format(ExtractUserId(c, token).value))
    ensures ExtractUserId(c, token).Ok? && Repo.GetUser(r, Format(ExtractUserId(c, token).value)).Ok? ==>
      (res.Ok? <==> Repo.GetUser(r, Format(ExtractUserId(c, token).value)).value.token == token)
    ensures res.Ok? ==> res.value.token == token
    ensures res.Ok? ==>
      && ExtractUserId(c, token).Ok?
      && Repo.GetUser(r, Format(ExtractUserId(c, token).value)) == Ok(res.value)
    ensures res.Err? && ExtractUserId(c, token).Ok? && Repo.GetUser(r, Format(ExtractUserId(c, token).value)).Ok? ==>
      res == Err(ErrTokenInvalid)
  {
    var id :- ExtractUserId(c, token);
    var s :- Repo.GetUser(r, Format(id));
    if token != s.token then Err(ErrTokenInvalid) else Ok(s)
  }

  /** A token whose claims cannot be read fails before the store is
      consulted: the answer is the same whatever Redis holds. */
  lemma GetUserBadTokenIgnoresStore(c: Codec, r1: Redis, r2: Redis, token: string)
    requires ExtractUserId(c, token).Err?
    ensures GetUser(c, r1, token) == GetUser(c, r2, token)
    ensures GetUser(c, r1, token).Err? && GetUser(c, r1, token).error in {External(TokenParse), ErrTokenInvalid}
  {
  }

  /** A freshly issued token resolves to the session just stored. */
  lemma CreateThenGetUser(c: Codec, r: Redis, cfg: Repo.Settings, u: User, n: nat)
    requires Lawful(c) && Valid(r) && r.up
    ensures Create(c, r, cfg, u, Some(n)).Ok?
    ensures GetUser(c, Create(c, r, cfg, u, Some(n)).value.store, Create(c, r, cfg, u, Some(n)).value.token) ==
      Ok(SessionOf(u, Create(c, r, cfg, u, Some(n)).value.token))
  {
    ExtractIssued(c, u, n);
    Repo.CreateThenGetUser(r, cfg, u, Create(c, r, cfg, u, Some(n)).value.token);
  }

  /** Single active token: after a second `Create` for the same user the
      first token is refused with `ErrTokenInvalid` and the second one is
      accepted. */
  lemma {:induction false} SecondCreateRevokesFirst(c: Codec, r: Redis, cfg: Repo.Settings, u: User, n1: nat, n2: nat)
    requires Lawful(c) && Valid(r) && r.up && n1 != n2
    ensures Create(c, r, cfg, u, Some(n1)).Ok?
    ensures Create(c, Create(c, r, cfg, u, Some(n1)).value.store, cfg, u, Some(n2)).Ok?
    ensures
      var first := Create(c, r, cfg, u, Some(n1)).value;
      var second := Create(c, first.store, cfg, u, Some(n2)).value;
      && GetUser(c, second.store, first.token) == Err(ErrTokenInvalid)
      && GetUser(c, second.store, second.token) == Ok(SessionOf(u, second.token))
  {
    var first := Create(c, r, cfg, u, Some(n1)).value;
    var second := Create(c, first.store, cfg, u, Some(n2)).value;
    assert c.decode(first.token) != c.decode(second.token);
    ExtractIssued(c, u, n1);
    ExtractIssued(c, u, n2);
    Repo.CreateThenGetUser(first.store, cfg, u, second.token);
  }

  /** The refresh behind `Update` as written: a user row that is not found
      comes back from `GetByID` as a nil pointer with no error, and `*user`
      panics. */
  function RefreshAsWritten(r: Redis, s: Session, lookup: Lookup<User>): (res: Result<Redis>)
    requires Valid(r)
    ensures lookup.Missing? ==> res == Err(NilDereference)
    ensures lookup.Failed? ==> res == Err(lookup.error)
    ensures lookup.Found? ==> res == Repo.UpdateAsWritten(r, lookup.row, s.token)
  {
    match lookup
    case Failed(e) => Err(e)
    case Missing => Err(NilDereference)
    case Found(u) => Repo.UpdateAsWritten(r, u, s.token)
  }

  /** The refresh with both holes closed: a missing user is
      `ErrUserNotFound`, and a session that has expired meanwhile is
      `ErrSessionNotFound` and is not written back. The stored record takes
      the user's current name, email and avatar and keeps the session's
      token and remaining lifetime. */
  function Refresh(r: Redis, s: Session, lookup: Lookup<User>): (res: Result<Redis>)
    requires Valid(r)
    ensures lookup.Missing? ==> res == Err(ErrUserNotFound)
    ensures lookup.Failed? ==> res == Err(lookup.error)
    ensures res.Ok? <==> lookup.Found? && r.up && Repo.TokenKey(Format(lookup.row.id)) in r.data
    ensures res.Ok? ==> Valid(res.value) && res.value.data.Keys == r.data.Keys
    ensures res.Ok? ==> (res.value.data[Repo.TokenKey(Format(lookup.row.id))] ==
      Entry(SessionJson(SessionOf(lookup.row, s.token)), r.data[Repo.TokenKey(Format(lookup.row.id))].ttl))
    ensures res.Ok? ==> forall k :: k in r.data && k != Repo.TokenKey(Format(lookup.row.id)) ==> res.value.data[k] == r.data[k]
  {
    match lookup
    case Failed(e) => Err(e)
    case Missing => Err(ErrUserNotFound)
    case Found(u) => Repo.Update(r, u, s.token)
  }

  /** `Update` as written: the context must hold a `*domain.Session`. */
  function UpdateAsWritten(r: Redis, ctx: CtxValue, lookup: Lookup<User>): (res: Result<Redis>)
    requires Valid(r)
    ensures !ctx.SessionRef? ==> res == Err(ErrUserNotFoundInContext)
    ensures ctx.SessionRef? ==> res == RefreshAsWritten(r, ctx.session, lookup)
  {
    match AsSession(ctx)
    case None => Err(ErrUserNotFoundInContext)
    case Some(s) => RefreshAsWritten(r, s, lookup)
  }

  /** `Update`, on the corrected refresh. */
  function Update(r: Redis, ctx: CtxValue, lookup: Lookup<User>): (res: Result<Redis>)
    requires Valid(r)
    ensures !ctx.SessionRef? ==> res == Err(ErrUserNotFoundInContext)
    ensures ctx.SessionRef? ==> res == Refresh(r, ctx.session, lookup)
  {
    match AsSession(ctx)
    case None => Err(ErrUserNotFoundInContext)
    case Some(s) => Refresh(r, s, lookup)
  }

  /** The as-written `Update` panics for a session whose user row is gone;
      the corrected one reports `ErrUserNotFound`. */
  lemma UpdateMissingUser(r: Redis, s: Session)
    requires Valid(r)
    ensures UpdateAsWritten(r, SessionRef(s), Missing) == Err(NilDereference)
    ensures Update(r, SessionRef(s), Missing) == Err(ErrUserNotFound)
  {
  }

  /** After `Update` the presented token still resolves, now to the
      refreshed record: the token is kept and the user's new fields are
      served. */
  lemma {:induction false} UpdateKeepsToken(c: Codec, r: Redis, s: Session, u: User, token: string)
    requires Valid(r) && Repo.WellTyped(r)
    requires GetUser(c, r, token) == Ok(s) && u.id == s.userId
    ensures Update(r, SessionRef(s), Found(u)).Ok?
    ensures GetUser(c, Update(r, SessionRef(s), Found(u)).value, token) == Ok(SessionOf(u, token))
  {
    var id := ExtractUserId(c, token).value;
    Repo.WellTypedReads(r, id, "");
    FormatInjective(id, s.userId);
  }

  /** `SaveOTP` of both services: pass the code to the repository. */
  function SaveOTP(r: Redis, cfg: Repo.Settings, email: string, otp: string): (res: Result<Redis>)
    requires Valid(r)
    ensures !r.up <==> res == Err(External(RedisTransport))
    ensures res.Ok? ==> Repo.GetOTP(res.value, email) == Ok(otp)
    ensures res.Ok? ==> res == Repo.SaveOTP(r, cfg, email, otp)
  {
    Repo.SaveOTP(r, cfg, email, otp)
  }

  /** `GetOTP`: a code that is not there reads as the empty string; every
      other error passes through unchanged. */
  function GetOTP(r: Redis, email: string): (res: Result<string>)
    ensures Repo.GetOTP(r, email).Ok? ==> res == Repo.GetOTP(r, email)
    ensures Repo.GetOTP(r, email) == Err(ErrOTPNotFound) ==> res == Ok("")
    ensures res.Err? <==> Repo.GetOTP(r, email).Err? && !Is(Repo.GetOTP(r, email).error, ErrOTPNotFound)
    ensures res.Err? ==> res == Repo.GetOTP(r, email)
  {
    match Repo.GetOTP(r, email)
    case Ok(code) => Ok(code)
    case Err(e) => if Is(e, ErrOTPNotFound) then Ok("") else Err(e)
  }

  /** A caller cannot tell an absent code from a stored empty one. */
  lemma GetOTPAbsentLooksEmpty(r: Redis, cfg: Repo.Settings, email: string)
    requires Valid(r) && r.up && Repo.OtpKey(email) !in r.data
    ensures SaveOTP(r, cfg, email, "").Ok?
    ensures GetOTP(r, email) == GetOTP(SaveOTP(r, cfg, email, "").value, email) == Ok("")
  {
  }
}
