/** repository/session.go and repository/user_session.go: the two session
    repositories over Redis. Their `Create`, `GetUser`, `Update` and
    `SaveOTP` are the same code, modelled once; the wired one adds
    `GetOTP`, the legacy one `VerifyOTP`.

    Storing a `Session` marshals it to JSON and reading it back unmarshals
    it; that round trip is taken as exact, so the store holds the record
    itself (`SessionJson`). */
module SessionRepository {
  import opened Results
  import opened Uuids
  import opened DomainUser
  import opened DomainSession
  import opened RedisStore

  /** `config.Env.TokenExp` (hours) and `config.Env.OTPExp` (minutes). */
  datatype Settings = Settings(tokenExpHours: int, otpExpMinutes: int)

  const TokenPrefix: string := "usersession_"
  const OtpPrefix: string := "usersession_OTP_"

  /** `getTokenKey`. */
  function TokenKey(id: string): (k: string)
    ensures |k| == |TokenPrefix| + |id| && k[..|TokenPrefix|] == TokenPrefix && k[|TokenPrefix|..] == id
  {
    TokenPrefix + id
  }

  /** `getOTPKey`. */
  function OtpKey(email: string): (k: string)
    ensures |k| == |OtpPrefix| + |email| && k[..|OtpPrefix|] == OtpPrefix && k[|OtpPrefix|..] == email
  {
    OtpPrefix + email
  }

  predicate IsOtpKey(k: string) {
    |k| >= |OtpPrefix| && k[..|OtpPrefix|] == OtpPrefix
  }

  /** Distinct ids, and distinct emails, get distinct keys. */
  lemma KeysInjective(a: string, b: string)
    ensures TokenKey(a) == TokenKey(b) ==> a == b
    ensures OtpKey(a) == OtpKey(b) ==> a == b
  {
    if TokenKey(a) == TokenKey(b) {
      assert a == TokenKey(a)[|TokenPrefix|..];
    }
    if OtpKey(a) == OtpKey(b) {
      assert a == OtpKey(a)[|OtpPrefix|..];
    }
  }

  /** The session key of a user is never an OTP key: the text of a UUID
      starts with a lower-case hex digit, never with the `O` of `OTP_`. */
  lemma TokenKeyNotOtp(id: Uuid)
    ensures !IsOtpKey(TokenKey(Format(id)))
  {
    var k := TokenKey(Format(id));
    assert k[12] == Format(id)[0] != 'O';
    assert OtpPrefix[12] == 'O';
  }

  /** So no session key and no OTP key ever coincide. */
  lemma KeySpacesDisjoint(id: Uuid, email: string)
    ensures TokenKey(Format(id)) != OtpKey(email)
  {
    TokenKeyNotOtp(id);
  }

  /** What the repositories keep in Redis: session records under the
      session key of their own user id, plain strings under OTP keys. */
  predicate WellTyped(r: Redis) {
    forall k :: k in r.data ==>
      match r.data[k].value
      case SessionJson(s) => k == TokenKey(Format(s.userId))
      case Text(_) => IsOtpKey(k)
  }

  /** `time.Duration(TokenExp) * time.Hour`, in seconds. */
  function SessionTtl(cfg: Settings): Expiration {
    Seconds(cfg.tokenExpHours * 3600)
  }

  /** `time.Duration(OTPExp) * time.Minute`, in seconds. */
  function OtpTtl(cfg: Settings): Expiration {
    Seconds(cfg.otpExpMinutes * 60)
  }

  /** `Create`: store the user's session under its key, replacing any
      earlier session and giving it the full lifetime. */
  function Create(r: Redis, cfg: Settings, u: User, token: string): (res: Result<Redis>)
    requires Valid(r)
    ensures !r.up <==> res == Err(External(RedisTransport))
    ensures res.Ok? ==> Valid(res.value) && res.value.up
    ensures res.Ok? ==> TokenKey(Format(u.id)) in res.value.data
    ensures res.Ok? ==> res.value.data[TokenKey(Format(u.id))].value == SessionJson(SessionOf(u, token))
    ensures res.Ok? ==> (res.value.data[TokenKey(Format(u.id))].ttl ==
      (if cfg.tokenExpHours > 0 then Expires(cfg.tokenExpHours * 3600) else Persistent))
    ensures res.Ok? ==> res.value.data.Keys == r.data.Keys + {TokenKey(Format(u.id))}
    ensures res.Ok? ==> forall k :: k in r.data && k != TokenKey(Format(u.id)) ==> res.value.data[k] == r.data[k]
  {
    Set(r, TokenKey(Format(u.id)), SessionJson(SessionOf(u, token)), SessionTtl(cfg))
  }

  /** `GetUser`: an absent (or expired) key is `ErrSessionNotFound`; a
      transport error passes through; a value that is not a session record
      fails to unmarshal. */
  function GetUser(r: Redis, userId: string): (res: Result<Session>)
    ensures !r.up ==> res == Err(External(RedisTransport))
    ensures r.up && TokenKey(userId) !in r.data ==> res == Err(ErrSessionNotFound)
    ensures res.Ok? <==> r.up && TokenKey(userId) in r.data && r.data[TokenKey(userId)].value.SessionJson?
    ensures res.Ok? ==> res.value == r.data[TokenKey(userId)].value.session
    ensures res.Err? ==> res.error in {External(RedisTransport), ErrSessionNotFound, External(JsonDecode)}
  {
    match Get(r, TokenKey(userId))
    case Err(e) => if e == RedisNil then Err(ErrSessionNotFound) else Err(e)
    case Ok(v) =>
      match v
      case SessionJson(s) => Ok(s)
      case Text(_) => Err(External(JsonDecode))
  }

  /** `Update` as both repositories write it: read the key's TTL, then
      store the refreshed record with that duration. When the key is gone,
      the reply -2 is handed to `SET` as -2 ns, which sets no expiry. */
  function UpdateAsWritten(r: Redis, u: User, token: string): (res: Result<Redis>)
    requires Valid(r)
    ensures !r.up <==> res == Err(External(RedisTransport))
    ensures res.Ok? ==> Valid(res.value) && res.value.data.Keys == r.data.Keys + {TokenKey(Format(u.id))}
    ensures res.Ok? ==> (res.value.data[TokenKey(Format(u.id))] ==
      Entry(SessionJson(SessionOf(u, token)),
        if TokenKey(Format(u.id)) in r.data then r.data[TokenKey(Format(u.id))].ttl else Persistent))
    ensures res.Ok? ==> forall k :: k in r.data && k != TokenKey(Format(u.id)) ==> res.value.data[k] == r.data[k]
  {
    var key := TokenKey(Format(u.id));
    var ttl :- TtlOf(r, key);
    Set(r, key, SessionJson(SessionOf(u, token)), AsDuration(ttl))
  }

  /** `Update` with the missing-key case closed: a session that is gone is
      reported as `ErrSessionNotFound` and not written back. */
  function Update(r: Redis, u: User, token: string): (res: Result<Redis>)
    requires Valid(r)
    ensures !r.up ==> res == Err(External(RedisTransport))
    ensures r.up && TokenKey(Format(u.id)) !in r.data ==> res == Err(ErrSessionNotFound)
    ensures res.Ok? <==> r.up && TokenKey(Format(u.id)) in r.data
    ensures res.Ok? ==> Valid(res.value) && res.value.data.Keys == r.data.Keys
    ensures res.Ok? ==> (res.value.data[TokenKey(Format(u.id))] ==
      Entry(SessionJson(SessionOf(u, token)), r.data[TokenKey(Format(u.id))].ttl))
    ensures res.Ok? ==> forall k :: k in r.data && k != TokenKey(Format(u.id)) ==> res.value.data[k] == r.data[k]
  {
    var key := TokenKey(Format(u.id));
    var ttl :- TtlOf(r, key);
    if ttl == NoKey then Err(ErrSessionNotFound)
    else Set(r, key, SessionJson(SessionOf(u, token)), AsDuration(ttl))
  }

  /** `SaveOTP`: store the code under the email's OTP key with the OTP
      lifetime, replacing any earlier code. */
  function SaveOTP(r: Redis, cfg: Settings, email: string, otp: string): (res: Result<Redis>)
    requires Valid(r)
    ensures !r.up <==> res == Err(External(RedisTransport))
    ensures res.Ok? ==> Valid(res.value) && res.value.up
    ensures res.Ok? ==> res.value.data.Keys == r.data.Keys + {OtpKey(email)}
    ensures res.Ok? ==> (res.value.data[OtpKey(email)] ==
      Entry(Text(otp), if cfg.otpExpMinutes > 0 then Expires(cfg.otpExpMinutes * 60) else Persistent))
    ensures res.Ok? ==> forall k :: k in r.data && k != OtpKey(email) ==> res.value.data[k] == r.data[k]
  {
    Set(r, OtpKey(email), Text(otp), OtpTtl(cfg))
  }

  /** `GetOTP`: the stored code, or `ErrOTPNotFound`. A session record can
      sit under no OTP key of a well-typed store (see `WellTypedReads`). */
  function GetOTP(r: Redis, email: string): (res: Result<string>)
    ensures !r.up ==> res == Err(External(RedisTransport))
    ensures r.up && OtpKey(email) !in r.data ==> res == Err(ErrOTPNotFound)
    ensures res.Ok? <==> r.up && OtpKey(email) in r.data && r.data[OtpKey(email)].value.Text?
    ensures res.Ok? ==> res.value == r.data[OtpKey(email)].value.text
  {
    match Get(r, OtpKey(email))
    case Err(e) => if e == RedisNil then Err(ErrOTPNotFound) else Err(e)
    case Ok(v) =>
      match v
      case Text(t) => Ok(t)
      case SessionJson(_) => Err(External(JsonDecode))
  }

  /** `VerifyOTP` of the legacy repository: not found, mismatch and match
      are three different answers; the `true` of Go's `(bool, error)` pair
      is the `Ok` value. Nothing is deleted, so a matched code stays
      matchable until it expires. */
  function VerifyOTP(r: Redis, email: string, otp: string): (res: Result<bool>)
    ensures res.Ok? ==> res.value
    ensures r.up && OtpKey(email) !in r.data ==> res == Err(ErrOTPNotFound)
    ensures res.Ok? <==> GetOTP(r, email) == Ok(otp)
    ensures GetOTP(r, email).Ok? && GetOTP(r, email).value != otp ==> res == Err(ErrOTPInvalid)
  {
    var stored :- GetOTP(r, email);
    if stored != otp then Err(ErrOTPInvalid) else Ok(true)
  }

  /** The session record read back is the one `Create` wrote. */
  lemma CreateThenGetUser(r: Redis, cfg: Settings, u: User, token: string)
    requires Valid(r) && r.up
    ensures Create(r, cfg, u, token).Ok?
    ensures GetUser(Create(r, cfg, u, token).value, Format(u.id)) == Ok(SessionOf(u, token))
  {
  }

  /** A session created with a positive lifetime answers `GetUser` for
      exactly that many seconds and `ErrSessionNotFound` after. */
  lemma {:induction false} SessionExpires(r: Redis, cfg: Settings, u: User, token: string, dt: nat)
    requires Valid(r) && r.up && cfg.tokenExpHours > 0
    ensures Create(r, cfg, u, token).Ok?
    ensures GetUser(Tick(Create(r, cfg, u, token).value, dt), Format(u.id)) ==
      if dt < cfg.tokenExpHours * 3600 then Ok(SessionOf(u, token)) else Err(ErrSessionNotFound)
  {
    var r1 := Create(r, cfg, u, token).value;
    var key := TokenKey(Format(u.id));
    assert r1.data[key].ttl == Expires(cfg.tokenExpHours * 3600);
    assert key in Tick(r1, dt).data <==> dt < cfg.tokenExpHours * 3600;
  }

  /** An OTP matches for its whole lifetime and is gone after it. */
  lemma {:induction false} OtpMatchesUntilExpiry(r: Redis, cfg: Settings, email: string, otp: string, dt: nat)
    requires Valid(r) && r.up && cfg.otpExpMinutes > 0
    ensures SaveOTP(r, cfg, email, otp).Ok?
    ensures VerifyOTP(Tick(SaveOTP(r, cfg, email, otp).value, dt), email, otp) ==
      if dt < cfg.otpExpMinutes * 60 then Ok(true) else Err(ErrOTPNotFound)
  {
    var r1 := SaveOTP(r, cfg, email, otp).value;
    assert r1.data[OtpKey(email)].ttl == Expires(cfg.otpExpMinutes * 60);
    assert OtpKey(email) in Tick(r1, dt).data <==> dt < cfg.otpExpMinutes * 60;
  }

  /** Saving a new code replaces the old one: only the newest matches. */
  lemma SaveOTPReplaces(r: Redis, cfg: Settings, email: string, first: string, second: string)
    requires Valid(r) && r.up && first != second
    ensures SaveOTP(r, cfg, email, first).Ok?
    ensures SaveOTP(SaveOTP(r, cfg, email, first).value, cfg, email, second).Ok?
    ensures VerifyOTP(SaveOTP(SaveOTP(r, cfg, email, first).value, cfg, email, second).value, email, first) == Err(ErrOTPInvalid)
    ensures VerifyOTP(SaveOTP(SaveOTP(r, cfg, email, first).value, cfg, email, second).value, email, second) == Ok(true)
  {
  }

  /** `Update` neither extends nor resets a session's lifetime, and keeps
      the token it is given. */
  lemma UpdateKeepsLifetime(r: Redis, u: User, token: string, dt: nat)
    requires Valid(r) && r.up && TokenKey(Format(u.id)) in r.data
    ensures Update(r, u, token).Ok?
    ensures Update(r, u, token) == UpdateAsWritten(r, u, token)
    ensures (TokenKey(Format(u.id)) in Tick(Update(r, u, token).value, dt).data) ==
      (TokenKey(Format(u.id)) in Tick(r, dt).data)
  {
  }

  /** The as-written `Update` on a key that has already expired: the
      record is written back with no expiry at all, so that session never
      expires again. */
  lemma UpdateAsWrittenResurrects(r: Redis, u: User, token: string, dt: nat)
    requires Valid(r) && r.up && TokenKey(Format(u.id)) !in r.data
    ensures UpdateAsWritten(r, u, token).Ok?
    ensures GetUser(Tick(UpdateAsWritten(r, u, token).value, dt), Format(u.id)) == Ok(SessionOf(u, token))
    ensures Update(r, u, token) == Err(ErrSessionNotFound)
  {
  }

  /** Every repository write keeps the store well typed. */
  lemma {:induction false} WritesKeepWellTyped(r: Redis, cfg: Settings, u: User, token: string, email: string, otp: string, dt: nat)
    requires Valid(r) && WellTyped(r)
    ensures Create(r, cfg, u, token).Ok? ==> WellTyped(Create(r, cfg, u, token).value)
    ensures Update(r, u, token).Ok? ==> WellTyped(Update(r, u, token).value)
    ensures UpdateAsWritten(r, u, token).Ok? ==> WellTyped(UpdateAsWritten(r, u, token).value)
    ensures SaveOTP(r, cfg, email, otp).Ok? ==> WellTyped(SaveOTP(r, cfg, email, otp).value)
    ensures WellTyped(Tick(r, dt))
  {
    var key := TokenKey(Format(u.id));
    var okey := OtpKey(email);
    assert IsOtpKey(okey) by {
      assert okey[..|OtpPrefix|] == OtpPrefix;
    }
    if Create(r, cfg, u, token).Ok? {
      var r1 := Create(r, cfg, u, token).value;
      forall k | k in r1.data
        ensures match r1.data[k].value
          case SessionJson(s) => k == TokenKey(Format(s.userId))
          case Text(_) => IsOtpKey(k)
      {
        if k != key { assert r1.data[k] == r.data[k]; }
      }
    }
    if Update(r, u, token).Ok? {
      var r1 := Update(r, u, token).value;
      forall k | k in r1.data
        ensures match r1.data[k].value
          case SessionJson(s) => k == TokenKey(Format(s.userId))
          case Text(_) => IsOtpKey(k)
      {
        if k != key { assert r1.data[k] == r.data[k]; }
      }
    }
    if UpdateAsWritten(r, u, token).Ok? {
      var r1 := UpdateAsWritten(r, u, token).value;
      forall k | k in r1.data
        ensures match r1.data[k].value
          case SessionJson(s) => k == TokenKey(Format(s.userId))
          case Text(_) => IsOtpKey(k)
      {
        if k != key { assert r1.data[k] == r.data[k]; }
      }
    }
    if SaveOTP(r, cfg, email, otp).Ok? {
      var r1 := SaveOTP(r, cfg, email, otp).value;
      forall k | k in r1.data
        ensures match r1.data[k].value
          case SessionJson(s) => k == TokenKey(Format(s.userId))
          case Text(_) => IsOtpKey(k)
      {
        if k != okey { assert r1.data[k] == r.data[k]; }
      }
    }
    var r2 := Tick(r, dt);
    forall k | k in r2.data
      ensures match r2.data[k].value
        case SessionJson(s) => k == TokenKey(Format(s.userId))
        case Text(_) => IsOtpKey(k)
    {
      assert r2.data[k].value == r.data[k].value;
    }
  }

  /** In a well-typed store an OTP key only ever holds a code and a user's
      session key only ever holds that user's session record, so the
      decode failures of `GetOTP` and `GetUser` cannot happen. */
  lemma {:induction false} WellTypedReads(r: Redis, id: Uuid, email: string)
    requires WellTyped(r) && r.up
    ensures GetOTP(r, email).Ok? <==> OtpKey(email) in r.data
    ensures GetUser(r, Format(id)).Ok? <==> TokenKey(Format(id)) in r.data
    ensures GetUser(r, Format(id)).Ok? ==> GetUser(r, Format(id)).value.userId == id
  {
    var okey := OtpKey(email);
    var key := TokenKey(Format(id));
    if okey in r.data && r.data[okey].value.SessionJson? {
      KeySpacesDisjoint(r.data[okey].value.session.userId, email);
      assert false;
    }
    if key in r.data {
      match r.data[key].value
      case SessionJson(s) =>
        KeysInjective(Format(id), Format(s.userId));
        FormatInjective(id, s.userId);
      case Text(_) =>
        TokenKeyNotOtp(id);
        assert false;
    }
  }
}
