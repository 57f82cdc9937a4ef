/** The slice of a gin request context that the handlers and the middleware touch:
    the `Authorization` header, the per-request key/value store, the JSON responses
    written, the abort flag and the calls to the next handler. */
module Gin {
  import opened Jwt
  import opened Models

  const StatusOK: nat := 200
  const StatusCreated: nat := 201
  const StatusBadRequest: nat := 400
  const StatusUnauthorized: nat := 401
  const StatusInternalServerError: nat := 500

  /** A value stored with `c.Set`: a `uint`, a `jwt.MapClaims`, or anything else. */
  datatype Value = UintValue(n: nat) | ClaimsValue(claims: Claims) | OtherValue

  /** A JSON response body: `{"error": ..}`, `{"message": ..}`, `{"token": ..}`,
      `{"data": user}`, or a bare user. */
  datatype Body =
    | ErrorBody(error: string)
    | MessageBody(message: string)
    | TokenBody(token: string)
    | DataBody(data: UserResponse)
    | UserBody(user: UserResponse)

  datatype Response = Response(status: nat, body: Body)

  /** An uploaded multipart file. */
  datatype FileHeader = FileHeader(filename: string)

  class Context {
    const authorization: string
    var keys: map<string, Value>
    var responses: seq<Response>
    var aborted: bool
    var nextCalls: nat

    /** A fresh request carrying the given `Authorization` header ("" when absent). */
    constructor (authorization: string)
      ensures this.authorization == authorization
      ensures keys == map[] && responses == [] && !aborted && nextCalls == 0
    {
      this.authorization := authorization;
      keys := map[];
      responses := [];
      aborted := false;
      nextCalls := 0;
    }

    /** `c.JSON(status, body)`. */
    method JSON(status: nat, body: Body)
      modifies this
      ensures responses == old(responses) + [Response(status, body)]
      ensures keys == old(keys) && aborted == old(aborted) && nextCalls == old(nextCalls)
    {
      responses := responses + [Response(status, body)];
    }

    /** `c.Set(key, value)`. */
    method Set(key: string, value: Value)
      modifies this
      ensures keys == old(keys)[key := value]
      ensures responses == old(responses) && aborted == old(aborted) && nextCalls == old(nextCalls)
    {
      keys := keys[key := value];
    }

    /** `c.Abort()`: the remaining handlers are skipped. */
    method Abort()
      modifies this
      ensures aborted
      ensures keys == old(keys) && responses == old(responses) && nextCalls == old(nextCalls)
    {
      aborted := true;
    }

    /** `c.Next()`: the remaining handlers run. */
    method Next()
      modifies this
      ensures nextCalls == old(nextCalls) + 1
      ensures keys == old(keys) && responses == old(responses) && aborted == old(aborted)
    {
      nextCalls := nextCalls + 1;
    }
  }
}
