/** middleware/middleware.go and middleware/resendCode.go: the two gates in
    front of the handlers. Each runs an ordered sequence of checks over the
    `Authorization` header and either answers with a problem-details
    response or calls the next handler with a value stored under
    `UserKey`. */
module Middleware {
  import opened Results
  import opened GoStrings
  import opened DomainUser
  import opened DomainSession
  import opened RedisStore
  import opened Jwt
  import opened TokenUtil
  import Repo = SessionRepository
  import Wired = SessionService
  import Legacy = UserSessionService
  import Users = UserService

  /** What a gate does with the request: answer it with HTTP `status` and a
      problem-details body whose own `Status` field is `bodyStatus` (the two
      differ in two places of the source), or run the handler with `ctx` in
      the request context. */
  datatype Response =
    | Reject(status: int, bodyStatus: int, title: string)
    | Next(ctx: CtxValue)

  /** `CheckLoggedIn`: empty header, header shape, verified parse with the
      public key, session lookup through the wired session service. */
  function CheckLoggedIn(c: Codec, r: Redis, header: string): (res: Response)
    ensures header == "" ==> res == Reject(401, 401, "Access Denied")
    ensures header != "" && ExtractToken(header).Err? ==> res == Reject(401, 401, "Invalid Session")
    ensures header != "" && ExtractToken(header).Ok? && ParseVerified(c, ExtractToken(header).value, PublicKey).Err? ==>
      res == Reject(401, 403, "Invalid Session")
    ensures res.Next? <==>
      && header != ""
      && ExtractToken(header).Ok?
      && ParseVerified(c, ExtractToken(header).value, PublicKey).Ok?
      && Wired.GetUser(c, r, ExtractToken(header).value).Ok?
    ensures res.Next? ==> res.ctx == SessionRef(Wired.GetUser(c, r, ExtractToken(header).value).value)
    ensures res.Next? ==> res.ctx.session.token == ExtractToken(header).value
    ensures res == Reject(403, 401, "Session Expired") <==>
      && header != ""
      && ExtractToken(header).Ok?
      && ParseVerified(c, ExtractToken(header).value, PublicKey).Ok?
      && Wired.GetUser(c, r, ExtractToken(header).value).Err?
      && Is(Wired.GetUser(c, r, ExtractToken(header).value).error, ErrSessionNotFound)
    ensures res == Reject(401, 401, "Unauthorized Access") <==>
      && header != ""
      && ExtractToken(header).Ok?
      && ParseVerified(c, ExtractToken(header).value, PublicKey).Ok?
      && Wired.GetUser(c, r, ExtractToken(header).value).Err?
      && !Is(Wired.GetUser(c, r, ExtractToken(header).value).error, ErrSessionNotFound)
  {
    if header == "" then Reject(401, 401, "Access Denied")
    else match ExtractToken(header)
      case Err(_) => Reject(401, 401, "Invalid Session")
      case Ok(token) =>
        if ParseVerified(c, token, PublicKey).Err? then Reject(401, 403, "Invalid Session")
        else match Wired.GetUser(c, r, token)
          case Err(e) =>
            if Is(e, ErrSessionNotFound) then Reject(403, 401, "Session Expired")
            else Reject(401, 401, "Unauthorized Access")
          case Ok(s) => Next(SessionRef(s))
  }

  /** A token presented with any one-word scheme is looked at; what the
      scheme says does not matter. */
  lemma SchemeIgnored(c: Codec, r: Redis, scheme1: string, scheme2: string, token: string)
    requires ' ' !in scheme1 && ' ' !in scheme2 && ' ' !in token
    ensures CheckLoggedIn(c, r, scheme1 + " " + token) == CheckLoggedIn(c, r, scheme2 + " " + token)
  {
    ExtractTokenOf(scheme1, token);
    ExtractTokenOf(scheme2, token);
  }

  /** The header a client sends: `Bearer` and the token. */
  lemma BearerHeader(token: string)
    requires ' ' !in token
    ensures ExtractToken("Bearer " + token) == Ok(token)
  {
    assert "Bearer " + token == "Bearer" + " " + token;
    ExtractTokenOf("Bearer", token);
  }

  /** End to end: the token of a sign-in opens the gate with the user's
      session; after a second sign-in it is refused as "Unauthorized
      Access" while the new token opens the gate. */
  lemma {:induction false} SignInTwiceThroughGate(c: Codec, r: Redis, cfg: Repo.Settings, u: User, n1: nat, n2: nat)
    requires Lawful(c) && Valid(r) && r.up && n1 != n2
    ensures Wired.Create(c, r, cfg, u, Some(n1)).Ok?
    ensures Wired.Create(c, Wired.Create(c, r, cfg, u, Some(n1)).value.store, cfg, u, Some(n2)).Ok?
    ensures
      var first := Wired.Create(c, r, cfg, u, Some(n1)).value;
      var second := Wired.Create(c, first.store, cfg, u, Some(n2)).value;
      && CheckLoggedIn(c, first.store, "Bearer " + first.token) == Next(SessionRef(SessionOf(u, first.token)))
      && CheckLoggedIn(c, second.store, "Bearer " + first.token) == Reject(401, 401, "Unauthorized Access")
      && CheckLoggedIn(c, second.store, "Bearer " + second.token) == Next(SessionRef(SessionOf(u, second.token)))
  {
    var first := Wired.Create(c, r, cfg, u, Some(n1)).value;
    var second := Wired.Create(c, first.store, cfg, u, Some(n2)).value;
    BearerHeader(first.token);
    BearerHeader(second.token);
    SignedVerifies(c, IssuedClaims(u), n1);
    SignedVerifies(c, IssuedClaims(u), n2);
    Wired.CreateThenGetUser(c, r, cfg, u, n1);
    Wired.SecondCreateRevokesFirst(c, r, cfg, u, n1, n2);
  }

  /** A confirmed user who signs in with the right password gets a token
      that opens the gate with the session `SignIn` stored. */
  lemma {:induction false} SignInOpensGate(b: Users.Backend, c: Codec, r: Redis, cfg: Repo.Settings, p: SignInPayload, n: nat, code: Result<string>)
    requires Lawful(c) && Valid(r) && r.up
    requires b.byEmail(p.email).Found? && b.byEmail(p.email).row.emailConfirmed
    requires b.passwordMatches(b.byEmail(p.email).row.passwordHash, p.password)
    ensures Users.SignIn(b, c, r, cfg, p, Some(n), code).token.Some?
    ensures
      var s := Users.SignIn(b, c, r, cfg, p, Some(n), code);
      && s.error.None?
      && CheckLoggedIn(c, s.store, "Bearer " + s.token.value) == Next(SessionRef(SessionOf(b.byEmail(p.email).row, s.token.value)))
  {
    var u := b.byEmail(p.email).row;
    var issued := Wired.Create(c, r, cfg, u, Some(n)).value;
    BearerHeader(issued.token);
    SignedVerifies(c, IssuedClaims(u), n);
    Wired.CreateThenGetUser(c, r, cfg, u, n);
  }

  /** A session whose lifetime has run out is answered "Session Expired"
      with HTTP 403. */
  lemma {:induction false} ExpiredSessionThroughGate(c: Codec, r: Redis, cfg: Repo.Settings, u: User, n: nat, dt: nat)
    requires Lawful(c) && Valid(r) && r.up && cfg.tokenExpHours > 0 && dt >= cfg.tokenExpHours * 3600
    ensures Wired.Create(c, r, cfg, u, Some(n)).Ok?
    ensures
      var issued := Wired.Create(c, r, cfg, u, Some(n)).value;
      CheckLoggedIn(c, Tick(issued.store, dt), "Bearer " + issued.token) == Reject(403, 401, "Session Expired")
  {
    var issued := Wired.Create(c, r, cfg, u, Some(n)).value;
    BearerHeader(issued.token);
    Wired.ExtractIssued(c, u, n);
    SignedVerifies(c, IssuedClaims(u), n);
    Repo.SessionExpires(r, cfg, u, issued.token, dt);
  }

  /** A lookup failure other than a missing session is "Unauthorized
      Access": a valid token presented while Redis is unreachable. */
  lemma {:induction false} RedisDownThroughGate(c: Codec, r: Redis, u: User, n: nat)
    requires Lawful(c) && !r.up
    ensures Sign(c, IssuedClaims(u), Some(n)).Ok?
    ensures CheckLoggedIn(c, r, "Bearer " + Sign(c, IssuedClaims(u), Some(n)).value) == Reject(401, 401, "Unauthorized Access")
  {
    var token := Sign(c, IssuedClaims(u), Some(n)).value;
    BearerHeader(token);
    SignedVerifies(c, IssuedClaims(u), n);
    Wired.ExtractIssued(c, u, n);
  }

  /** `ResendCode` as written: authentication is optional (an empty header
      goes straight to the handler), and the key handed to the verifier is
      the one `LoadPrivateKey` returns. The verifier refuses that key, so
      every well-formed header ends at "Invalid Session" and the session
      lookup with its "Session Expired" and "Unauthorized Access" answers
      is never reached. */
  function ResendCodeGateAsWritten(c: Codec, keys: KeyFiles, r: Redis, header: string): (res: Response)
    ensures header == "" ==> res == Next(NoValue)
    ensures header != "" && ExtractToken(header).Err? ==> res == Reject(401, 401, "Invalid Session")
    ensures header != "" && ExtractToken(header).Ok? && !keys.privateLoads ==> res == Reject(500, 500, "Internal Server Error")
    ensures header != "" && ExtractToken(header).Ok? && keys.privateLoads ==> res == Reject(401, 401, "Invalid Session")
    ensures res.Next? ==> res.ctx == NoValue
  {
    if header == "" then Next(NoValue)
    else match ExtractToken(header)
      case Err(_) => Reject(401, 401, "Invalid Session")
      case Ok(token) =>
        if !keys.privateLoads then Reject(500, 500, "Internal Server Error")
        else if ParseVerified(c, token, PrivateKey).Err? then Reject(401, 401, "Invalid Session")
        else match Legacy.GetUser(c, keys, r, token)
          case Err(e) =>
            if Is(e, ErrSessionNotFound) then Reject(403, 403, "Session Expired")
            else Reject(401, 401, "Unauthorized Access")
          case Ok(s) => Next(UserSessionRef(s))
  }

  /** `ResendCode` with the public key in the verifier's hands. */
  function ResendCodeGate(c: Codec, keys: KeyFiles, r: Redis, header: string): (res: Response)
    ensures header == "" ==> res == Next(NoValue)
    ensures header != "" && ExtractToken(header).Err? ==> res == Reject(401, 401, "Invalid Session")
    ensures header != "" && ExtractToken(header).Ok? && !keys.publicLoads ==> res == Reject(500, 500, "Internal Server Error")
    ensures header != "" && ExtractToken(header).Ok? && keys.publicLoads && ParseVerified(c, ExtractToken(header).value, PublicKey).Err? ==>
      res == Reject(401, 401, "Invalid Session")
    ensures res == Reject(403, 403, "Session Expired") <==>
      && header != ""
      && ExtractToken(header).Ok?
      && keys.publicLoads
      && ParseVerified(c, ExtractToken(header).value, PublicKey).Ok?
      && Legacy.GetUser(c, keys, r, ExtractToken(header).value).Err?
      && Is(Legacy.GetUser(c, keys, r, ExtractToken(header).value).error, ErrSessionNotFound)
    ensures res == Reject(401, 401, "Unauthorized Access") <==>
      && header != ""
      && ExtractToken(header).Ok?
      && keys.publicLoads
      && ParseVerified(c, ExtractToken(header).value, PublicKey).Ok?
      && Legacy.GetUser(c, keys, r, ExtractToken(header).value).Err?
      && !Is(Legacy.GetUser(c, keys, r, ExtractToken(header).value).error, ErrSessionNotFound)
    ensures header != "" && res.Next? <==>
      && header != ""
      && ExtractToken(header).Ok?
      && keys.publicLoads
      && ParseVerified(c, ExtractToken(header).value, PublicKey).Ok?
      && Legacy.GetUser(c, keys, r, ExtractToken(header).value).Ok?
    ensures header != "" && res.Next? ==>
      res.ctx == UserSessionRef(Legacy.GetUser(c, keys, r, ExtractToken(header).value).value)
  {
    if header == "" then Next(NoValue)
    else match ExtractToken(header)
      case Err(_) => Reject(401, 401, "Invalid Session")
      case Ok(token) =>
        if !keys.publicLoads then Reject(500, 500, "Internal Server Error")
        else if ParseVerified(c, token, PublicKey).Err? then Reject(401, 401, "Invalid Session")
        else match Legacy.GetUser(c, keys, r, token)
          case Err(e) =>
            if Is(e, ErrSessionNotFound) then Reject(403, 403, "Session Expired")
            else Reject(401, 401, "Unauthorized Access")
          case Ok(s) => Next(UserSessionRef(s))
  }

  /** The as-written gate never lets a token through: every non-empty
      header is refused, even one carrying the token the legacy service
      has just issued and stored, which the corrected gate accepts. */
  lemma {:induction false} ResendCodeGateRefusesEveryToken(c: Codec, keys: KeyFiles, r: Redis, cfg: Repo.Settings, u: User, n: nat)
    requires Lawful(c) && Valid(r) && r.up && keys.privateLoads && keys.publicLoads
    ensures forall header :: header != "" ==> ResendCodeGateAsWritten(c, keys, r, header).Reject?
    ensures Legacy.Create(c, keys, r, cfg, u, Some(n)).Ok?
    ensures
      var issued := Legacy.Create(c, keys, r, cfg, u, Some(n)).value;
      && ResendCodeGateAsWritten(c, keys, issued.store, "Bearer " + issued.token) == Reject(401, 401, "Invalid Session")
      && ResendCodeGate(c, keys, issued.store, "Bearer " + issued.token) == Next(UserSessionRef(SessionOf(u, issued.token)))
  {
    forall header | header != ""
      ensures ResendCodeGateAsWritten(c, keys, r, header).Reject?
    {
      if ExtractToken(header).Ok? {
        PrivateKeyNeverVerifies(c, ExtractToken(header).value);
      }
    }
    var issued := Legacy.Create(c, keys, r, cfg, u, Some(n)).value;
    BearerHeader(issued.token);
    SignedVerifies(c, IssuedClaims(u), n);
    Legacy.SecondCreateRevokesFirst(c, keys, r, cfg, u, n, n + 1);
  }
}
