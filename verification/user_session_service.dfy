/** service/user_session.go: the older session service. It differs from the
    wired one in where the keys come from (the PEM files, read on every
    call), in extracting the user id through a signature-verified parse
    without checking that it is a UUID, and in the context type its
    `Update` expects (`*domain.UserSession`). */
module UserSessionService {
  import opened Results
  import opened Uuids
  import opened DomainUser
  import opened DomainSession
  import opened RedisStore
  import opened Jwt
  import opened TokenUtil
  import Repo = SessionRepository
  import Wired = SessionService

  /** `Create`: `util.CreateToken`, then store. */
  function Create(c: Codec, keys: KeyFiles, r: Redis, cfg: Repo.Settings, u: User, entropy: Option<nat>): (res: Result<Wired.Issued>)
    requires Lawful(c) && Valid(r)
    ensures res.Ok? <==> keys.privateLoads && entropy.Some? && r.up
    ensures !keys.privateLoads ==> res == Err(External(KeyFile))
    ensures res.Ok? ==> res.value.token != [] && ' ' !in res.value.token
    ensures res.Ok? ==> c.decode(res.value.token) == Some(Token(ES256, IssuedClaims(u), entropy.value, true))
    ensures res.Ok? ==> Repo.Create(r, cfg, u, res.value.token) == Ok(res.value.store)
  {
    var token :- CreateToken(c, keys, u, entropy);
    var r' :- Repo.Create(r, cfg, u, token);
    Ok(Wired.Issued(token, r'))
  }

  /** `GetUser`: verified extraction of the `id` claim, lookup under that
      text as it is, and the same token equality as the wired service. */
  function GetUser(c: Codec, keys: KeyFiles, r: Redis, token: string): (res: Result<Session>)
    ensures ExtractUserIdFromToken(c, keys, token).Err? ==> res == Err(ExtractUserIdFromToken(c, keys, token).error)
    ensures ExtractUserIdFromToken(c, keys, token).Ok? && r.up && Repo.TokenKey(ExtractUserIdFromToken(c, keys, token).value) !in r.data ==>
      res == Err(ErrSessionNotFound)
    ensures ExtractUserIdFromToken(c, keys, token).Ok? && Repo.GetUser(r, ExtractUserIdFromToken(c, keys, token).value).Err? ==>
      res == Repo.GetUser(r, ExtractUserIdFromToken(c, keys, token).value)
    ensures res.Ok? ==> res.value.token == token
    ensures res.Ok? ==> Repo.GetUser(r, ExtractUserIdFromToken(c, keys, token).value) == Ok(res.value)
    ensures res.Ok? ==> c.decode(token).Some? && c.decode(token).value.signatureValid && IsEcdsa(c.decode(token).value.alg)
    ensures res.Err? && ExtractUserIdFromToken(c, keys, token).Ok? && Repo.GetUser(r, ExtractUserIdFromToken(c, keys, token).value).Ok? ==>
      res == Err(ErrTokenInvalid)
  {
    var id :- ExtractUserIdFromToken(c, keys, token);
    var s :- Repo.GetUser(r, id);
    if token != s.token then Err(ErrTokenInvalid) else Ok(s)
  }

  /** Unlike the wired service, a token with a bad signature is refused
      before the store is consulted, even one whose text is the stored
      token. */
  lemma BadSignatureRefused(c: Codec, keys: KeyFiles, r: Redis, t: Token)
    requires Lawful(c) && keys.publicLoads && IsEcdsa(t.alg) && !t.signatureValid
    ensures GetUser(c, keys, r, c.encode(t)) == Err(ErrSignatureInvalid)
  {
  }

  /** A freshly issued token resolves to the session just stored, and a
      second `Create` for the same user revokes the first token. */
  lemma {:induction false} SecondCreateRevokesFirst(c: Codec, keys: KeyFiles, r: Redis, cfg: Repo.Settings, u: User, n1: nat, n2: nat)
    requires Lawful(c) && Valid(r) && r.up && keys.privateLoads && keys.publicLoads && n1 != n2
    ensures Create(c, keys, r, cfg, u, Some(n1)).Ok?
    ensures Create(c, keys, Create(c, keys, r, cfg, u, Some(n1)).value.store, cfg, u, Some(n2)).Ok?
    ensures
      var first := Create(c, keys, r, cfg, u, Some(n1)).value;
      var second := Create(c, keys, first.store, cfg, u, Some(n2)).value;
      && GetUser(c, keys, first.store, first.token) == Ok(SessionOf(u, first.token))
      && GetUser(c, keys, second.store, first.token) == Err(ErrTokenInvalid)
      && GetUser(c, keys, second.store, second.token) == Ok(SessionOf(u, second.token))
  {
    var first := Create(c, keys, r, cfg, u, Some(n1)).value;
    var second := Create(c, keys, first.store, cfg, u, Some(n2)).value;
    assert c.decode(first.token) != c.decode(second.token);
    CreateThenExtract(c, keys, u, n1);
    CreateThenExtract(c, keys, u, n2);
    Repo.CreateThenGetUser(r, cfg, u, first.token);
    Repo.CreateThenGetUser(first.store, cfg, u, second.token);
  }

  /** `Update` as written: the context must hold a `*domain.UserSession`;
      the refresh is the wired service's, nil dereference included. */
  function UpdateAsWritten(r: Redis, ctx: CtxValue, lookup: Lookup<User>): (res: Result<Redis>)
    requires Valid(r)
    ensures !ctx.UserSessionRef? ==> res == Err(ErrUserNotFoundInContext)
    ensures ctx.UserSessionRef? ==> res == Wired.RefreshAsWritten(r, ctx.userSession, lookup)
  {
    match AsUserSession(ctx)
    case None => Err(ErrUserNotFoundInContext)
    case Some(s) => Wired.RefreshAsWritten(r, s, lookup)
  }

  /** `Update`, on the corrected refresh. */
  function Update(r: Redis, ctx: CtxValue, lookup: Lookup<User>): (res: Result<Redis>)
    requires Valid(r)
    ensures !ctx.UserSessionRef? ==> res == Err(ErrUserNotFoundInContext)
    ensures ctx.UserSessionRef? ==> res == Wired.Refresh(r, ctx.userSession, lookup)
  {
    match AsUserSession(ctx)
    case None => Err(ErrUserNotFoundInContext)
    case Some(s) => Wired.Refresh(r, s, lookup)
  }

  /** The two services' `Update`s never accept the same context: what the
      wired gate attaches is refused here, and the other way round. */
  lemma UpdateContextsExclusive(r: Redis, s: Session, lookup: Lookup<User>)
    requires Valid(r)
    ensures Update(r, SessionRef(s), lookup) == Err(ErrUserNotFoundInContext)
    ensures Wired.Update(r, UserSessionRef(s), lookup) == Err(ErrUserNotFoundInContext)
  {
  }
}
