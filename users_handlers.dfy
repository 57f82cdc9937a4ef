/** The HTTP handlers of the user routes: binding outcomes in, one JSON response out. */
module UsersHandlers {
  import opened Wrappers
  import opened GoStrings
  import opened Models
  import opened Jwt
  import opened Gin
  import opened Middleware
  import opened UsersRepository
  import opened UsersUsecase
  import Router

  /** The key login tokens are signed with. */
  const SigningKey := "your_secret_key"

  /** A login token expires 72 hours after issue, in seconds. */
  const TokenLifetime: nat := 72 * 3600

  const BearerPrefix := "Bearer "

  const MsgCouldNotGenerateToken := "could not generate token"
  const MsgNoClaims := "No claims found in context"
  const MsgInvalidClaims := "Invalid token claims"
  const MsgNoToken := "No token provided"
  const MsgLogoutSuccessful := "Logout successful"
  const MsgUploadFailed := "Failed to upload image"
  const MsgUpdateFailed := "Failed to update user"
  const MsgDeleteFailed := "Failed to delete user"
  const MsgUserDeleted := "User deleted successfully"

  /** The claims of a login token: exactly the user's id and email and an expiry
      `TokenLifetime` seconds after `now`. */
  function LoginClaims(u: User, now: nat): (c: Claims)
    ensures c.Keys == {"id", "email", "exp"}
    ensures c["id"] == Number(u.id) && c["email"] == Text(u.email)
    ensures c["exp"] == Number(now + TokenLifetime)
  {
    map["id" := Number(u.id), "email" := Text(u.email), "exp" := Number(now + TokenLifetime)]
  }

  /** A login token is unexpired exactly during the `TokenLifetime` seconds after issue. */
  lemma LoginClaimsLifetime(u: User, now: nat, t: nat)
    ensures Unexpired(LoginClaims(u, now), t) <==> t < now + TokenLifetime
  {
  }

  /** The guard the protected user handlers run on the stored claims: missing claims,
      claims of another type and a non-numeric `id` fail in that order. */
  function ClaimsUserID(keys: map<string, Value>): (r: Result<nat>)
    ensures ClaimsKey !in keys ==> r == Err(MsgNoClaims)
    ensures ClaimsKey in keys && !keys[ClaimsKey].ClaimsValue? ==> r == Err(MsgInvalidClaims)
    ensures ClaimsKey in keys && keys[ClaimsKey].ClaimsValue?
            && !("id" in keys[ClaimsKey].claims && keys[ClaimsKey].claims["id"].Number?)
            ==> r == Err(MsgInvalidUserID)
    ensures r.Ok? <==> && ClaimsKey in keys && keys[ClaimsKey].ClaimsValue?
                       && "id" in keys[ClaimsKey].claims && keys[ClaimsKey].claims["id"].Number?
    ensures r.Ok? ==> r.value == keys[ClaimsKey].claims["id"].n
    ensures r.Err? ==> r.error in {MsgNoClaims, MsgInvalidClaims, MsgInvalidUserID}
  {
    if ClaimsKey !in keys then Err(MsgNoClaims)
    else match keys[ClaimsKey]
      case ClaimsValue(userClaims) =>
        if "id" in userClaims && userClaims["id"].Number? then Ok(userClaims["id"].n)
        else Err(MsgInvalidUserID)
      case _ => Err(MsgInvalidClaims)
  }

  /** After the gate accepts a request, the handlers' guard reads back the same identity
      the gate stored under `userID`. */
  lemma GateAndGuardAgree(lib: Library, secretKey: string, header: string, now: nat, keys: map<string, Value>)
    requires Authenticate(lib, secretKey, header, now).Accept?
    ensures var d := Authenticate(lib, secretKey, header, now);
      && ClaimsUserID(Stored(keys, d.userID, d.claims)) == Ok(d.userID)
      && GetUserID(Stored(keys, d.userID, d.claims)) == (d.userID, None)
  {
  }

  /** A token issued at login for user `u` at time `now`, presented before it expires
      behind any one-word scheme, passes the gate with `u.id` as the identity and the
      login claims as the claims: the signing key is the gate's secret. */
  lemma LoginTokenAuthenticates(lib: Library, u: User, now: nat, later: nat, scheme: string)
    requires RoundTrips(lib)
    requires lib.sign(HS256, LoginClaims(u, now), SigningKey).Ok?
    requires later < now + TokenLifetime
    requires ' ' !in scheme
    ensures var token := lib.sign(HS256, LoginClaims(u, now), SigningKey).value;
      Authenticate(lib, Router.AuthSecret, scheme + " " + token, later) == Accept(u.id, LoginClaims(u, now))
  {
    var claims := LoginClaims(u, now);
    var token := lib.sign(HS256, claims, SigningKey).value;
    assert Unexpired(claims, later);
    SchemeIgnored(lib, Router.AuthSecret, scheme, token, later);
    assert KeyFunc(Router.AuthSecret)(HS256) == Key(SigningKey);
  }

  /** The form of the update request once the optional image file is uploaded: the
      image becomes the uploaded URL exactly when a file was sent. */
  function WithUploadedImage(input: UserUpdateInput, file: Option<FileHeader>,
                             upload: FileHeader -> Result<string>): (r: Result<UserUpdateInput>)
    ensures file.None? ==> r == Ok(input)
    ensures file.Some? && upload(file.value).Err? ==> r.Err?
    ensures file.Some? && upload(file.value).Ok? ==> r == Ok(input.(image := upload(file.value).value))
  {
    match file
    case None => Ok(input)
    case Some(f) =>
      match upload(f)
      case Err(e) => Err(e)
      case Ok(url) => Ok(input.(image := url))
  }

  /** The token `LogoutUser` logs out: the trimmed header without one leading "Bearer ". */
  function LoggedOutToken(header: string): string
  {
    TrimPrefix(TrimSpace(header), BearerPrefix)
  }

  /** A header "Bearer <token>", with the token ending in a non-blank, logs out exactly
      that token, even when the token itself begins with "Bearer ". */
  lemma LogoutStripsOneBearer(token: string)
    requires token != [] && !IsSpace(token[|token| - 1])
    ensures LoggedOutToken(BearerPrefix + token) == token
  {
    var h := BearerPrefix + token;
    assert h[0] == 'B' && h[|h| - 1] == token[|token| - 1];
    TrimSpaceTrimmed(h);
    TrimPrefixOnce(BearerPrefix, token);
  }

  /** A trimmed header that does not start with "Bearer " is logged out as it is; the
      prefix is matched case-sensitively, so a lower-case scheme stays in the token. */
  lemma LogoutKeepsOtherSchemes(header: string)
    ensures !HasPrefix(TrimSpace(header), BearerPrefix) ==> LoggedOutToken(header) == TrimSpace(header)
    ensures LoggedOutToken("bearer abc") == "bearer abc"
  {
    TrimSpaceTrimmed("bearer abc");
    assert !HasPrefix("bearer abc", BearerPrefix) by {
      assert "bearer abc"[0] != BearerPrefix[0];
    }
  }

  class UserHandlers {
    const userUseCase: UserUseCase

    constructor (userUseCase: UserUseCase)
      ensures this.userUseCase == userUseCase
    {
      this.userUseCase := userUseCase;
    }

    /** Sign-up: a payload that does not bind and every use-case error are 400s; a
        created user is a 201 carrying its projection. */
    method SignUpUser(c: Context, payload: Result<SignUpInput>)
      requires userUseCase.userRepo.Valid()
      modifies c, userUseCase.userRepo
      ensures userUseCase.userRepo.Valid()
      ensures c.keys == old(c.keys) && c.aborted == old(c.aborted) && c.nextCalls == old(c.nextCalls)
      ensures payload.Err? ==>
                && c.responses == old(c.responses) + [Response(StatusBadRequest, ErrorBody(payload.error))]
                && unchanged(userUseCase.userRepo)
      ensures payload.Ok? ==>
                var outcome := old(userUseCase.SignUpOutcome(payload.value));
                && (outcome.Err? ==>
                      && c.responses == old(c.responses) + [Response(StatusBadRequest, ErrorBody(outcome.error))]
                      && unchanged(userUseCase.userRepo))
                && (outcome.Ok? ==>
                      && c.responses == old(c.responses)
                                        + [Response(StatusCreated, DataBody(FilterUserRecord(outcome.value)))]
                      && userUseCase.userRepo.rows == old(userUseCase.userRepo.rows)[outcome.value.id := outcome.value]
                      && userUseCase.userRepo.writes == old(userUseCase.userRepo.writes) + [Created(outcome.value)]
                      && userUseCase.userRepo.nextID == old(userUseCase.userRepo.nextID) + 1)
    {
      if payload.Err? {
        c.JSON(StatusBadRequest, ErrorBody(payload.error));
        return;
      }
      var createdUser := userUseCase.SignUpUser(payload.value);
      if createdUser.Err? {
        c.JSON(StatusBadRequest, ErrorBody(createdUser.error));
        return;
      }
      c.JSON(StatusCreated, DataBody(createdUser.value));
    }

    /** Login: a payload that does not bind is a 400, a use-case error a 401 with its
        text, a signing failure a 500; otherwise a 200 with the HS256 token over the
        login claims, signed with `SigningKey`. */
    method LoginUser(c: Context, payload: Result<SignInInput>, lib: Library, now: nat)
      modifies c
      ensures c.keys == old(c.keys) && c.aborted == old(c.aborted) && c.nextCalls == old(c.nextCalls)
      ensures payload.Err? ==>
                c.responses == old(c.responses) + [Response(StatusBadRequest, ErrorBody(payload.error))]
      ensures payload.Ok? && userUseCase.LoginUser(payload.value).Err? ==>
                c.responses == old(c.responses)
                               + [Response(StatusUnauthorized, ErrorBody(userUseCase.LoginUser(payload.value).error))]
      ensures payload.Ok? && userUseCase.LoginUser(payload.value).Ok? ==>
                var signed := lib.sign(HS256, LoginClaims(userUseCase.LoginUser(payload.value).value, now), SigningKey);
                && (signed.Err? ==>
                      c.responses == old(c.responses)
                                     + [Response(StatusInternalServerError, ErrorBody(MsgCouldNotGenerateToken))])
                && (signed.Ok? ==>
                      c.responses == old(c.responses) + [Response(StatusOK, TokenBody(signed.value))])
    {
      if payload.Err? {
        c.JSON(StatusBadRequest, ErrorBody(payload.error));
        return;
      }
      var loggedInUser := userUseCase.LoginUser(payload.value);
      if loggedInUser.Err? {
        c.JSON(StatusUnauthorized, ErrorBody(loggedInUser.error));
        return;
      }
      var claims := LoginClaims(loggedInUser.value, now);
      var tokenString := lib.sign(HS256, claims, SigningKey);
      if tokenString.Err? {
        c.JSON(StatusInternalServerError, ErrorBody(MsgCouldNotGenerateToken));
        return;
      }
      c.JSON(StatusOK, TokenBody(tokenString.value));
    }

    /** Profile: the guard's failures are 401s, a use-case error is a 500 with its text,
        and otherwise the projection of the caller's stored user is returned. */
    method GetUserProfile(c: Context)
      modifies c
      ensures c.keys == old(c.keys) && c.aborted == old(c.aborted) && c.nextCalls == old(c.nextCalls)
      ensures var guard := ClaimsUserID(c.keys);
        && (guard.Err? ==>
              c.responses == old(c.responses) + [Response(StatusUnauthorized, ErrorBody(guard.error))])
        && (guard.Ok? && userUseCase.GetUserProfile(guard.value).Err? ==>
              c.responses == old(c.responses)
                             + [Response(StatusInternalServerError,
                                         ErrorBody(userUseCase.GetUserProfile(guard.value).error))])
        && (guard.Ok? && userUseCase.GetUserProfile(guard.value).Ok? ==>
              c.responses == old(c.responses)
                             + [Response(StatusOK, UserBody(userUseCase.GetUserProfile(guard.value).value))])
    {
      var userID := ClaimsUserID(c.keys);
      if userID.Err? {
        c.JSON(StatusUnauthorized, ErrorBody(userID.error));
        return;
      }
      var profile := userUseCase.GetUserProfile(userID.value);
      if profile.Err? {
        c.JSON(StatusInternalServerError, ErrorBody(profile.error));
        return;
      }
      c.JSON(StatusOK, UserBody(profile.value));
    }

    /** Logout: a header that trims to nothing is a 401; otherwise the token is only
        logged (returned here) and a 200 is written. No state changes. */
    method LogoutUser(c: Context) returns (logged: Option<string>)
      modifies c
      ensures c.keys == old(c.keys) && c.aborted == old(c.aborted) && c.nextCalls == old(c.nextCalls)
      ensures TrimSpace(c.authorization) == "" ==>
                && c.responses == old(c.responses) + [Response(StatusUnauthorized, ErrorBody(MsgNoToken))]
                && logged == None
      ensures TrimSpace(c.authorization) != "" ==>
                && c.responses == old(c.responses) + [Response(StatusOK, MessageBody(MsgLogoutSuccessful))]
                && logged == Some(LoggedOutToken(c.authorization))
    {
      var token := TrimSpace(c.authorization);
      if token == "" {
        c.JSON(StatusUnauthorized, ErrorBody(MsgNoToken));
        return None;
      }
      token := TrimPrefix(token, BearerPrefix);
      logged := Some(token);
      c.JSON(StatusOK, MessageBody(MsgLogoutSuccessful));
    }

    /** Update: guard failures are 401s and an unbindable form a 400, before any work;
        a failed upload is a 500 and a use-case failure a 500 with a fixed message, with
        nothing written; otherwise the merged record is stored and returned. */
    method UpdateUser(c: Context, payload: Result<UserUpdateInput>, file: Option<FileHeader>,
                      upload: FileHeader -> Result<string>)
      requires userUseCase.userRepo.Valid()
      modifies c, userUseCase.userRepo
      ensures userUseCase.userRepo.Valid()
      ensures c.keys == old(c.keys) && c.aborted == old(c.aborted) && c.nextCalls == old(c.nextCalls)
      ensures var guard := ClaimsUserID(c.keys);
        && (guard.Err? ==>
              && c.responses == old(c.responses) + [Response(StatusUnauthorized, ErrorBody(guard.error))]
              && unchanged(userUseCase.userRepo))
        && (guard.Ok? && payload.Err? ==>
              && c.responses == old(c.responses) + [Response(StatusBadRequest, ErrorBody(payload.error))]
              && unchanged(userUseCase.userRepo))
        && (guard.Ok? && payload.Ok? && WithUploadedImage(payload.value, file, upload).Err? ==>
              && c.responses == old(c.responses)
                                + [Response(StatusInternalServerError, ErrorBody(MsgUploadFailed))]
              && unchanged(userUseCase.userRepo))
        && (guard.Ok? && payload.Ok? && WithUploadedImage(payload.value, file, upload).Ok? ==>
              var outcome := old(userUseCase.UpdateOutcome(guard.value,
                                                            WithUploadedImage(payload.value, file, upload).value));
              && (outcome.Err? ==>
                    && c.responses == old(c.responses)
                                      + [Response(StatusInternalServerError, ErrorBody(MsgUpdateFailed))]
                    && unchanged(userUseCase.userRepo))
              && (outcome.Ok? ==>
                    && c.responses == old(c.responses)
                                      + [Response(StatusOK, UserBody(FilterUserRecord(outcome.value)))]
                    && userUseCase.userRepo.rows == old(userUseCase.userRepo.rows)[guard.value := outcome.value]
                    && userUseCase.userRepo.writes == old(userUseCase.userRepo.writes) + [Saved(outcome.value)]
                    && userUseCase.userRepo.nextID == old(userUseCase.userRepo.nextID)))
    {
      var userID := ClaimsUserID(c.keys);
      if userID.Err? {
        c.JSON(StatusUnauthorized, ErrorBody(userID.error));
        return;
      }
      if payload.Err? {
        c.JSON(StatusBadRequest, ErrorBody(payload.error));
        return;
      }
      var updatedUser := payload.value;
      if file.Some? {
        var uploadedURL := upload(file.value);
        if uploadedURL.Err? {
          c.JSON(StatusInternalServerError, ErrorBody(MsgUploadFailed));
          return;
        }
        updatedUser := updatedUser.(image := uploadedURL.value);
      }
      var updatedUserResponse := userUseCase.UpdateUser(userID.value, updatedUser);
      if updatedUserResponse.Err? {
        c.JSON(StatusInternalServerError, ErrorBody(MsgUpdateFailed));
        return;
      }
      c.JSON(StatusOK, UserBody(updatedUserResponse.value));
    }

    /** Delete: guard failures are 401s with nothing deleted; a use-case error is a 500
        with a fixed message; otherwise the caller's row is gone and a 200 is written. */
    method DeleteUser(c: Context)
      requires userUseCase.userRepo.Valid()
      modifies c, userUseCase.userRepo
      ensures userUseCase.userRepo.Valid()
      ensures c.keys == old(c.keys) && c.aborted == old(c.aborted) && c.nextCalls == old(c.nextCalls)
      ensures var guard := ClaimsUserID(c.keys);
        && (guard.Err? ==>
              && c.responses == old(c.responses) + [Response(StatusUnauthorized, ErrorBody(guard.error))]
              && unchanged(userUseCase.userRepo))
        && (guard.Ok? && old(userUseCase.userRepo.Fault(DeleteOp)).Some? ==>
              && c.responses == old(c.responses)
                                + [Response(StatusInternalServerError, ErrorBody(MsgDeleteFailed))]
              && unchanged(userUseCase.userRepo))
        && (guard.Ok? && old(userUseCase.userRepo.Fault(DeleteOp)).None? ==>
              && c.responses == old(c.responses) + [Response(StatusOK, MessageBody(MsgUserDeleted))]
              && userUseCase.userRepo.rows == old(userUseCase.userRepo.rows) - {guard.value}
              && userUseCase.userRepo.writes == old(userUseCase.userRepo.writes) + [Deleted(guard.value)]
              && userUseCase.userRepo.nextID == old(userUseCase.userRepo.nextID))
    {
      var userID := ClaimsUserID(c.keys);
      if userID.Err? {
        c.JSON(StatusUnauthorized, ErrorBody(userID.error));
        return;
      }
      var err := userUseCase.DeleteUser(userID.value);
      if err.Some? {
        c.JSON(StatusInternalServerError, ErrorBody(MsgDeleteFailed));
        return;
      }
      c.JSON(StatusOK, MessageBody(MsgUserDeleted));
    }
  }
}
