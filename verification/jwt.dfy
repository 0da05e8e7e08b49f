/**
  The token the login route asks `jsonwebtoken` to sign, seen through its claims:
  the payload `{ user: { id } }`, the issue time `iat` in whole seconds, and the
  `exp` claim that `expiresIn: '5h'` adds (section 4.1.4 of RFC 7519).
  Signing itself is not modelled.
 */
module Jwt {
  import opened Base

  /** `expiresIn: '5h'`, in seconds. */
  const ExpiresIn: int := 5 * 60 * 60

  datatype UserClaim = UserClaim(id: Id)

  /** The payload carries the user id and nothing else; `iat`/`exp` are added by the signer. */
  datatype Claims = Claims(user: UserClaim, iat: int, exp: int)

  /** The claims of a token signed for `userId` at clock reading `nowMs` (milliseconds). */
  function Sign(userId: Id, nowMs: int): (c: Claims)
    ensures c.user.id == userId
    ensures c.iat * 1000 <= nowMs < c.iat * 1000 + 1000
    ensures c.exp - c.iat == 18000
  {
    var iat := nowMs / 1000;
    Claims(UserClaim(userId), iat, iat + ExpiresIn)
  }
}
