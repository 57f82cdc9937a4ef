/** The request authentication gate placed in front of every protected route, and the
    typed accessor handlers use to read the identity it stores. */
module Middleware {
  import opened Wrappers
  import opened GoStrings
  import opened Jwt
  import opened Gin

  const UserIDKey := "userID"
  const ClaimsKey := "claims"

  const MsgHeaderRequired := "Authorization header is required"
  const MsgInvalidFormat := "Invalid token format"
  const MsgInvalidSignature := "Invalid signature"
  const MsgInvalidUserID := "Invalid user ID in token"
  const MsgInvalidToken := "Invalid token"
  const MsgUserIDNotFound := "user ID not found in context"
  const MsgUserIDNotUint := "user ID is not a valid uint"

  /** The key function given to `jwt.Parse`: the secret for an HMAC method, and
      `jwt.ErrSignatureInvalid` without the secret for any other method. */
  function KeyFor(secretKey: string, m: Method): (k: KeyResult)
    ensures IsHmac(m) <==> k == Key(secretKey)
    ensures !IsHmac(m) <==> k == KeyError(SignatureInvalid)
  {
    if IsHmac(m) then Key(secretKey) else KeyError(SignatureInvalid)
  }

  function KeyFunc(secretKey: string): Method -> KeyResult
  {
    m => KeyFor(secretKey, m)
  }

  /** The gate's verdict on one request: a 401 with a message, or the identity and
      the claims to store before the request continues. */
  datatype Decision = Reject(message: string) | Accept(userID: nat, claims: Claims)

  /** The verdict on the token piece of the header: parse errors, claims that are not
      a valid map, and a missing or non-numeric `id` are rejected. */
  function CheckToken(lib: Library, secretKey: string, tokenString: string, now: nat): (d: Decision)
    ensures d.Accept? ==> "id" in d.claims && d.claims["id"] == Number(d.userID)
    ensures d.Accept? ==> Parse(lib, tokenString, KeyFunc(secretKey), now) == Parsed(MapClaims(d.claims), true)
    ensures d.Accept? <==>
      (exists c: Claims :: Parse(lib, tokenString, KeyFunc(secretKey), now) == Parsed(MapClaims(c), true)
                           && "id" in c && c["id"].Number?)
    ensures Parse(lib, tokenString, KeyFunc(secretKey), now) == Failed(SignatureInvalid)
            ==> d == Reject(MsgInvalidSignature)
    ensures forall m ::
              Parse(lib, tokenString, KeyFunc(secretKey), now) == Failed(OtherError(m)) ==> d == Reject(m)
    ensures var o := Parse(lib, tokenString, KeyFunc(secretKey), now);
      o.Parsed? && !(o.claims.MapClaims? && o.valid) ==> d == Reject(MsgInvalidToken)
    ensures var o := Parse(lib, tokenString, KeyFunc(secretKey), now);
      o.Parsed? && o.claims.MapClaims? && o.valid && !("id" in o.claims.claims && o.claims.claims["id"].Number?)
      ==> d == Reject(MsgInvalidUserID)
  {
    match Parse(lib, tokenString, KeyFunc(secretKey), now)
    case Failed(SignatureInvalid) => Reject(MsgInvalidSignature)
    case Failed(OtherError(msg)) => Reject(msg)
    case Parsed(tokenClaims, valid) =>
      if tokenClaims.MapClaims? && valid then
        var claims := tokenClaims.claims;
        if "id" in claims && claims["id"].Number? then Accept(claims["id"].n, claims)
        else Reject(MsgInvalidUserID)
      else Reject(MsgInvalidToken)
  }

  /** The verdict on a request with the given `Authorization` header. */
  function Authenticate(lib: Library, secretKey: string, header: string, now: nat): (d: Decision)
    ensures header == "" ==> d == Reject(MsgHeaderRequired)
    ensures header != "" && Count(header, ' ') != 1 ==> d == Reject(MsgInvalidFormat)
    ensures header != "" && Count(header, ' ') == 1 ==> d == CheckToken(lib, secretKey, Split(header, ' ')[1], now)
    ensures d.Accept? ==> "id" in d.claims && d.claims["id"] == Number(d.userID)
  {
    if header == "" then Reject(MsgHeaderRequired)
    else
      var bearerToken := Split(header, ' ');
      if |bearerToken| != 2 then Reject(MsgInvalidFormat)
      else CheckToken(lib, secretKey, bearerToken[1], now)
  }

  /** The context after a successful pass: `userID` then `claims` are set. */
  function Stored(keys: map<string, Value>, userID: nat, claims: Claims): map<string, Value>
  {
    keys[UserIDKey := UintValue(userID)][ClaimsKey := ClaimsValue(claims)]
  }

  /** `AuthMiddleware(secretKey)` run on one request: exactly on acceptance are the
      identity and claims stored and the next handler called; every rejection writes one
      401 response, aborts, and leaves the stored values alone. */
  method AuthMiddleware(lib: Library, secretKey: string, now: nat, c: Context)
    modifies c
    ensures var d := Authenticate(lib, secretKey, c.authorization, now);
      && c.keys == (if d.Accept? then Stored(old(c.keys), d.userID, d.claims) else old(c.keys))
      && c.nextCalls == old(c.nextCalls) + (if d.Accept? then 1 else 0)
      && c.aborted == (old(c.aborted) || d.Reject?)
      && c.responses == old(c.responses)
                        + (if d.Reject? then [Response(StatusUnauthorized, ErrorBody(d.message))] else [])
  {
    var authHeader := c.authorization;
    if authHeader == "" {
      c.JSON(StatusUnauthorized, ErrorBody(MsgHeaderRequired));
      c.Abort();
      return;
    }

    var bearerToken := Split(authHeader, ' ');
    if |bearerToken| != 2 {
      c.JSON(StatusUnauthorized, ErrorBody(MsgInvalidFormat));
      c.Abort();
      return;
    }

    var tokenString := bearerToken[1];
    var token := Parse(lib, tokenString, KeyFunc(secretKey), now);

    if token.Failed? {
      if token.err == SignatureInvalid {
        c.JSON(StatusUnauthorized, ErrorBody(MsgInvalidSignature));
      } else {
        c.JSON(StatusUnauthorized, ErrorBody(token.err.message));
      }
      c.Abort();
      return;
    }

    if token.claims.MapClaims? && token.valid {
      var claims := token.claims.claims;
      if !("id" in claims && claims["id"].Number?) {
        c.JSON(StatusUnauthorized, ErrorBody(MsgInvalidUserID));
        c.Abort();
        return;
      }
      var userID := claims["id"].n;
      c.Set(UserIDKey, UintValue(userID));
      c.Set(ClaimsKey, ClaimsValue(claims));
      c.Next();
    } else {
      c.JSON(StatusUnauthorized, ErrorBody(MsgInvalidToken));
      c.Abort();
    }
  }

  /** `GetUserID`: the stored identity, or 0 with an error when it is missing or not a
      `uint`. */
  function GetUserID(keys: map<string, Value>): (r: (nat, Option<string>))
    ensures r.1.Some? ==> r.0 == 0
    ensures UserIDKey !in keys ==> r == (0, Some(MsgUserIDNotFound))
    ensures UserIDKey in keys && !keys[UserIDKey].UintValue? ==> r == (0, Some(MsgUserIDNotUint))
    ensures r.1.None? <==> UserIDKey in keys && keys[UserIDKey].UintValue?
    ensures r.1.None? ==> r.0 == keys[UserIDKey].n
  {
    if UserIDKey !in keys then (0, Some(MsgUserIDNotFound))
    else if !keys[UserIDKey].UintValue? then (0, Some(MsgUserIDNotUint))
    else (keys[UserIDKey].n, None)
  }

  /** Whatever the first word of the header, only the piece after the single blank is
      looked at: the scheme is never compared with "Bearer". */
  lemma SchemeIgnored(lib: Library, secretKey: string, scheme: string, tokenString: string, now: nat)
    requires ' ' !in scheme && ' ' !in tokenString
    ensures Authenticate(lib, secretKey, scheme + " " + tokenString, now)
         == CheckToken(lib, secretKey, tokenString, now)
  {
    SplitAround(scheme, tokenString, ' ');
  }

  /** A header passes the format check exactly when it holds one blank; it is then the
      scheme, the blank and the token piece, and the verdict is that of the token piece. */
  lemma FormatCheck(lib: Library, secretKey: string, header: string, now: nat)
    requires header != ""
    ensures Authenticate(lib, secretKey, header, now) != Reject(MsgInvalidFormat) ==> Count(header, ' ') == 1
    ensures Count(header, ' ') == 1 ==>
      var pieces := Split(header, ' ');
      && header == pieces[0] + " " + pieces[1]
      && Authenticate(lib, secretKey, header, now) == CheckToken(lib, secretKey, pieces[1], now)
  {
    if Count(header, ' ') == 1 {
      SplitTwo(header, ' ');
    }
  }

  /** A token whose header names a method outside the HMAC family is never accepted:
      the key function refuses it before any key is handed out. */
  lemma NonHmacRejected(lib: Library, secretKey: string, tokenString: string, now: nat)
    requires lib.decode(tokenString).Decoded? && !IsHmac(lib.decode(tokenString).alg)
    ensures CheckToken(lib, secretKey, tokenString, now).Reject?
    ensures lib.keyFailure(SignatureInvalid) == SignatureInvalid ==>
            CheckToken(lib, secretKey, tokenString, now) == Reject(MsgInvalidSignature)
  {
    assert KeyFunc(secretKey)(lib.decode(tokenString).alg) == KeyError(SignatureInvalid);
  }

  /** After an accepted pass `GetUserID` returns exactly the identity the gate stored,
      whatever the context held before. */
  lemma GetUserIDAfterAccept(keys: map<string, Value>, userID: nat, claims: Claims)
    ensures GetUserID(Stored(keys, userID, claims)) == (userID, None)
  {
  }
}
