/** util/token.go and the header parsing shared with middleware/middleware.go:
    the `Authorization` header split, the claim set the services sign, the
    legacy token creation that loads the private key from disk on every
    call, and the legacy signature-verified extraction of the user id. */
module TokenUtil {
  import opened Results
  import opened GoStrings
  import opened Uuids
  import opened DomainUser
  import opened Jwt

  /** `ExtractToken` (util/token.go) and `extractToken`
      (middleware/middleware.go), which are the same code: split the header
      on " " and take the second piece when there are exactly two. The
      scheme word is not looked at. */
  function ExtractToken(header: string): (r: Result<string>)
    ensures r.Ok? <==> Count(header, ' ') == 1
    ensures r.Err? ==> r.error == ErrSessionNotFound
    ensures r.Ok? ==> ' ' !in r.value
  {
    var parts := Split(header, ' ');
    if |parts| == 2 then Ok(parts[1]) else Err(ErrSessionNotFound)
  }

  /** What a successful extraction returns: the text after the only space. */
  lemma ExtractTokenShape(header: string)
    requires ExtractToken(header).Ok?
    ensures exists scheme :: ' ' !in scheme && header == scheme + " " + ExtractToken(header).value
  {
    var parts := Split(header, ' ');
    JoinSplit(header, ' ');
    assert parts[1..] == [parts[1]];
    assert header == parts[0] + " " + parts[1];
  }

  /** Any one-word scheme followed by one space and a space-free token
      yields that token: `"Bearer t"`, `"Basic t"` and `"Bearer "` (empty
      token) alike. */
  lemma {:induction false} ExtractTokenOf(scheme: string, token: string)
    requires ' ' !in scheme && ' ' !in token
    ensures ExtractToken(scheme + " " + token) == Ok(token)
  {
    var parts := [scheme, token];
    assert Join(parts, ' ') == scheme + " " + token by {
      assert parts[1..] == [token];
    }
    SplitJoin(parts, ' ');
  }

  /** The claim set of `createToken` / `CreateToken`: id, name, email and
      avatar URL, and no expiry claim. The id is a `uuid.UUID`, which JSON
      encodes as its text. */
  function IssuedClaims(u: User): (c: Claims)
    ensures c.Keys == {"id", "name", "email", "avatarURL"}
    ensures "exp" !in c
    ensures c["id"] == Str(Format(u.id)) && c["name"] == Str(u.name)
    ensures c["email"] == Str(u.email) && c["avatarURL"] == Str(u.avatarUrl)
  {
    map["id" := Str(Format(u.id)), "name" := Str(u.name), "email" := Str(u.email), "avatarURL" := Str(u.avatarUrl)]
  }

  /** Whether the PEM files on disk load: `LoadPrivateKey` and
      `LoadPublicKey` read them on every call. */
  datatype KeyFiles = KeyFiles(privateLoads: bool, publicLoads: bool)

  /** `CreateToken`: load the private key, then sign. */
  function CreateToken(c: Codec, keys: KeyFiles, u: User, entropy: Option<nat>): (r: Result<string>)
    requires Lawful(c)
    ensures r.Ok? <==> keys.privateLoads && entropy.Some?
    ensures !keys.privateLoads ==> r == Err(External(KeyFile))
    ensures r.Ok? ==> c.decode(r.value) == Some(Token(ES256, IssuedClaims(u), entropy.value, true))
  {
    if !keys.privateLoads then Err(External(KeyFile))
    else Sign(c, IssuedClaims(u), entropy)
  }

  /** `ExtractUserIDFromToken`: load the public key, verify the token, and
      return its `id` claim as given, without parsing it as a UUID. */
  function ExtractUserIdFromToken(c: Codec, keys: KeyFiles, text: string): (r: Result<string>)
    ensures !keys.publicLoads ==> r == Err(External(KeyFile))
    ensures keys.publicLoads && ParseVerified(c, text, PublicKey).Err? ==>
      r == Err(ParseVerified(c, text, PublicKey).error)
    ensures r.Ok? <==>
      keys.publicLoads && ParseVerified(c, text, PublicKey).Ok?
      && "id" in ParseVerified(c, text, PublicKey).value.claims
      && ParseVerified(c, text, PublicKey).value.claims["id"].Str?
    ensures r.Ok? ==> r.value == ParseVerified(c, text, PublicKey).value.claims["id"].s
    ensures keys.publicLoads && ParseVerified(c, text, PublicKey).Ok? && r.Err? ==> r == Err(ErrTokenInvalid)
  {
    if !keys.publicLoads then Err(External(KeyFile))
    else
      var t :- ParseVerified(c, text, PublicKey);
      if "id" in t.claims && t.claims["id"].Str? then Ok(t.claims["id"].s) else Err(ErrTokenInvalid)
  }

  /** A token from `CreateToken` gives back the text of the user's id. */
  lemma CreateThenExtract(c: Codec, keys: KeyFiles, u: User, n: nat)
    requires Lawful(c) && keys.privateLoads && keys.publicLoads
    ensures CreateToken(c, keys, u, Some(n)).Ok?
    ensures ExtractUserIdFromToken(c, keys, CreateToken(c, keys, u, Some(n)).value) == Ok(Format(u.id))
  {
  }
}
