/** The JSON Web Token library (RFC 7519, signed with HMAC-SHA256 as in section 3.2 of
    RFC 7518) as the authentication code sees it. Its encoding, hashing and error
    wrapping are foreign code, so a `Library` is a value made of the functions the code
    calls; what the code relies on about them is the hypothesis `RoundTrips`. */
module Jwt {
  import opened Wrappers

  /** The signing methods a token header can name. */
  datatype Method =
    | HS256 | HS384 | HS512
    | RS256 | RS384 | RS512 | PS256 | PS384 | PS512
    | ES256 | ES384 | ES512 | EdDSA | NoneMethod

  /** The methods for which `token.Method.(*jwt.SigningMethodHMAC)` succeeds. */
  predicate IsHmac(m: Method)
  {
    m.HS256? || m.HS384? || m.HS512?
  }

  /** A decoded JSON claim. JSON numbers are carried as natural numbers. */
  datatype ClaimValue = Number(n: nat) | Text(s: string) | OtherJson

  type Claims = map<string, ClaimValue>

  /** The dynamic type of `token.Claims`: `jwt.MapClaims` or some other claims type. */
  datatype TokenClaims = MapClaims(claims: Claims) | OtherClaims

  /** Errors out of the library: the sentinel `jwt.ErrSignatureInvalid` or anything else,
      known by its `Error()` text. */
  datatype JwtError = SignatureInvalid | OtherError(message: string)

  /** What a key function answers for a token: the verification key, or an error. */
  datatype KeyResult = Key(secret: string) | KeyError(err: JwtError)

  /** A token string read without checking its signature. */
  datatype Decoded = Malformed(message: string) | Decoded(alg: Method, claims: TokenClaims)

  /** The result of `jwt.Parse`: the token's claims and `token.Valid`, or an error. */
  datatype ParseOutcome = Parsed(claims: TokenClaims, valid: bool) | Failed(err: JwtError)

  /** The library's functions.
      decode: reads header and claims of a token string;
      keyFailure: the error `Parse` reports when the key function fails with the given one;
      verify: checks signature and registered claims of a token with a key at a time;
      sign: `SignedString`, the token for a method, claims and key, or an error. */
  datatype Library = Library(
    decode: string -> Decoded,
    keyFailure: JwtError -> JwtError,
    verify: (string, string, nat) -> ParseOutcome,
    sign: (Method, Claims, string) -> Result<string>)

  /** `jwt.Parse(token, keyFunc)` at time `now`: the key function is consulted with the
      method the header names, and only a key it supplies is used to verify. */
  function Parse(lib: Library, token: string, keyFunc: Method -> KeyResult, now: nat): (o: ParseOutcome)
    ensures lib.decode(token).Malformed? ==> o == Failed(OtherError(lib.decode(token).message))
    ensures lib.decode(token).Decoded? && keyFunc(lib.decode(token).alg).KeyError?
            ==> o == Failed(lib.keyFailure(keyFunc(lib.decode(token).alg).err))
    ensures lib.decode(token).Decoded? && keyFunc(lib.decode(token).alg).Key?
            ==> o == lib.verify(token, keyFunc(lib.decode(token).alg).secret, now)
    ensures o.Parsed? ==> && lib.decode(token).Decoded?
                          && exists key :: keyFunc(lib.decode(token).alg) == Key(key)
                                           && o == lib.verify(token, key, now)
  {
    match lib.decode(token)
    case Malformed(msg) => Failed(OtherError(msg))
    case Decoded(alg, _) =>
      match keyFunc(alg)
      case KeyError(e) => Failed(lib.keyFailure(e))
      case Key(key) => lib.verify(token, key, now)
  }

  /** The registered `exp` claim (section 4.1.4 of RFC 7519) lies after `now`. */
  predicate Unexpired(c: Claims, now: nat)
  {
    "exp" in c && c["exp"].Number? && now < c["exp"].n
  }

  /** The library's contract with its users: a token signed with HS256 contains no
      blank, decodes to its method and claims, and verifies with the same key as valid
      map claims, identical to the signed ones, until it expires. */
  ghost predicate RoundTrips(lib: Library)
  {
    forall c: Claims, key: string :: lib.sign(HS256, c, key).Ok? ==>
      && ' ' !in lib.sign(HS256, c, key).value
      && lib.decode(lib.sign(HS256, c, key).value) == Decoded(HS256, MapClaims(c))
      && forall now: nat :: Unexpired(c, now) ==>
           lib.verify(lib.sign(HS256, c, key).value, key, now) == Parsed(MapClaims(c), true)
  }
}
