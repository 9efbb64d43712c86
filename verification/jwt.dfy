/** Session tokens: JSON Web Tokens (RFC 7519) signed with ES256 (section
    3.4 of RFC 7518), as the golang-jwt library handles them.

    The cryptography is not modelled. A token is an abstract value holding
    its header's signing method, its claim set, the randomness the ECDSA
    signer drew, and one bit saying whether its signature checks out under
    the service's public key. The compact text form is reached through a
    `Codec`, an encoder/decoder pair that is only assumed to be lawful
    (decoding an encoded token gives it back; encoded tokens are non-empty
    and contain no space, as base64url segments joined by dots do). */
module Jwt {
  import opened Results

  datatype Method = ES256 | ES384 | ES512 | HS256 | RS256 | NoSigning

  /** The method is a `*jwt.SigningMethodECDSA`. */
  predicate IsEcdsa(m: Method) {
    m == ES256 || m == ES384 || m == ES512
  }

  /** A JSON claim value, as it comes out of `jwt.MapClaims`. */
  datatype Claim = Str(s: string) | Number(n: int) | Flag(b: bool)

  type Claims = map<string, Claim>

  datatype Token = Token(alg: Method, claims: Claims, nonce: nat, signatureValid: bool)

  datatype Codec = Codec(encode: Token -> string, decode: string -> Option<Token>)

  ghost predicate Lawful(c: Codec) {
    && (forall t :: c.decode(c.encode(t)) == Some(t))
    && (forall t :: c.encode(t) != [] && ' ' !in c.encode(t))
  }

  /** Distinct tokens have distinct texts under a lawful codec. */
  lemma EncodeInjective(c: Codec, t: Token, u: Token)
    requires Lawful(c)
    requires c.encode(t) == c.encode(u)
    ensures t == u
  {
    assert c.decode(c.encode(t)) == Some(t);
    assert c.decode(c.encode(u)) == Some(u);
  }

  /** The key handed to the verifier: the ECDSA verifier accepts only a
      `*ecdsa.PublicKey` and rejects any other key type. */
  datatype Key = PublicKey | PrivateKey

  /** `SignedString` with ES256. `entropy` is the randomness the signer
      draws; `None` when signing fails. */
  function Sign(c: Codec, claims: Claims, entropy: Option<nat>): (r: Result<string>)
    requires Lawful(c)
    ensures entropy.None? <==> r.Err?
    ensures r.Err? ==> r.error == External(Signer)
    ensures r.Ok? ==> c.decode(r.value) == Some(Token(ES256, claims, entropy.value, true))
    ensures r.Ok? ==> r.value != [] && ' ' !in r.value
  {
    if entropy.None? then Err(External(Signer))
    else Ok(c.encode(Token(ES256, claims, entropy.value, true)))
  }

  /** `jwt.Parse` with a key function that refuses non-ECDSA methods and
      otherwise returns `key`: malformed text, an unexpected method, a key of
      the wrong type and a bad signature are the four failures, in that
      order. */
  function ParseVerified(c: Codec, text: string, key: Key): (r: Result<Token>)
    ensures r.Ok? <==>
      c.decode(text).Some? && IsEcdsa(c.decode(text).value.alg)
      && key == PublicKey && c.decode(text).value.signatureValid
    ensures r.Ok? ==> Some(r.value) == c.decode(text)
    ensures c.decode(text).Some? && !IsEcdsa(c.decode(text).value.alg) ==> r == Err(ErrorUnexpectedMethod)
  {
    match c.decode(text)
    case None => Err(External(TokenParse))
    case Some(t) =>
      if !IsEcdsa(t.alg) then Err(ErrorUnexpectedMethod)
      else if key != PublicKey then Err(ErrKeyInvalidType)
      else if !t.signatureValid then Err(ErrSignatureInvalid)
      else Ok(t)
  }

  /** `Parser.ParseUnverified`: decodes without looking at the signature. */
  function ParseUnverified(c: Codec, text: string): (r: Result<Token>)
    ensures r.Ok? <==> c.decode(text).Some?
    ensures r.Ok? ==> Some(r.value) == c.decode(text)
  {
    match c.decode(text)
    case None => Err(External(TokenParse))
    case Some(t) => Ok(t)
  }

  /** A token this service signed always passes verification with the
      public key. */
  lemma SignedVerifies(c: Codec, claims: Claims, n: nat)
    requires Lawful(c)
    ensures Sign(c, claims, Some(n)).Ok?
    ensures ParseVerified(c, Sign(c, claims, Some(n)).value, PublicKey) == Ok(Token(ES256, claims, n, true))
  {
  }

  /** With the private key as verification key no token passes. */
  lemma PrivateKeyNeverVerifies(c: Codec, text: string)
    ensures ParseVerified(c, text, PrivateKey).Err?
  {
  }
}
