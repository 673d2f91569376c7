/** The authentication gate in front of the protected routes
    (backend/middleware/isAuthenticated.ts). `jwt.verify` is a parameter: it
    maps a token to the payload's `userId` (absent when the payload lacks
    one), to `TokenExpired`, or to `VerifyFailed` for every other error
    (bad signature, malformed token). */
module AuthMiddleware {
  import opened Common

  datatype VerifyOutcome = Decoded(userId: Option<string>) | TokenExpired | VerifyFailed

  /** What the middleware does with a request: pass it on with the caller's
      id, or answer it. */
  datatype Decision = Proceed(userId: string) | Reject(reply: Reply)

  /** The decision table. A request gets through exactly when its cookie
      holds a token that verifies to a payload with a non-empty `userId`;
      only a verification error other than expiry is a server error. */
  function Authenticate(token: Option<string>, verify: string -> VerifyOutcome): (d: Decision)
    ensures d.Proceed? <==>
              && TruthyOpt(token)
              && verify(token.value).Decoded?
              && TruthyOpt(verify(token.value).userId)
    ensures d.Proceed? ==> d.userId == verify(token.value).userId.value && d.userId != ""
    ensures !TruthyOpt(token) ==> d == Reject(Reply(401, "User not authenticated"))
    ensures d.Reject? ==> d.reply.status == 401 || d.reply.status == 500
    ensures d.Reject? && d.reply.status == 500 <==> TruthyOpt(token) && verify(token.value).VerifyFailed?
    ensures TruthyOpt(token) && verify(token.value).TokenExpired? ==> d == Reject(Reply(401, "Token expired"))
    ensures TruthyOpt(token) && verify(token.value).Decoded? && !TruthyOpt(verify(token.value).userId) ==>
              d == Reject(Reply(401, "Invalid token"))
    ensures TruthyOpt(token) && verify(token.value).VerifyFailed? ==> d == Reject(InternalErrorLower)
  {
    if !TruthyOpt(token) then Reject(Reply(401, "User not authenticated"))
    else match verify(token.value)
      case Decoded(userId) =>
        if !TruthyOpt(userId) then Reject(Reply(401, "Invalid token")) else Proceed(userId.value)
      case TokenExpired => Reject(Reply(401, "Token expired"))
      case VerifyFailed => Reject(InternalErrorLower)
  }

  /** The request object; the middleware writes the caller's id into it. */
  class Request {
    var id: string

    constructor (id: string)
      ensures this.id == id
    {
      this.id := id;
    }
  }

  /** `isAuthenticated`: on success writes `req.id` and calls `next` (no
      reply of its own); otherwise answers and leaves `req` alone. */
  method IsAuthenticated(req: Request, token: Option<string>, verify: string -> VerifyOutcome)
    returns (reply: Option<Reply>, nextCalled: bool)
    modifies req
    ensures nextCalled <==> reply.None?
    ensures nextCalled <==> Authenticate(token, verify).Proceed?
    ensures nextCalled ==> req.id == Authenticate(token, verify).userId
    ensures !nextCalled ==> reply == Some(Authenticate(token, verify).reply) && req.id == old(req.id)
  {
    if token.None? || token.value == "" {
      return Some(Reply(401, "User not authenticated")), false;
    }
    var outcome := verify(token.value);
    if outcome.TokenExpired? {
      return Some(Reply(401, "Token expired")), false;
    } else if outcome.VerifyFailed? {
      return Some(InternalErrorLower), false;
    }
    if outcome.userId.None? || outcome.userId.value == "" {
      return Some(Reply(401, "Invalid token")), false;
    }
    req.id := outcome.userId.value;
    reply, nextCalled := None, true;
  }
}
