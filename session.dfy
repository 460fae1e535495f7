/**
 * The session issued on a successful signup: a JSON Web Token naming the new
 * user, valid for seven days, and the `jwt` cookie that carries it.
 */
module Session {
  import opened Wrappers

  /** The deployment settings read from the process environment. */
  datatype Env = Env(nodeEnv: Option<string>)  // process.env.NODE_ENV; None when unset

  /** The `expiresIn` option given to the token signer. */
  const TokenExpiresIn: string := "7d"

  /** Seven days, the token's validity, in seconds. */
  const TokenLifetimeSeconds: nat := 7 * 24 * 60 * 60

  /**
   * A signed session token. Signing is done by a library outside the model,
   * so the token is an opaque value that records only what it was signed
   * over: the payload `{ userId }` and the `expiresIn` option.
   */
  datatype Token = Token(userId: nat, expiresIn: string)

  /** The options object passed to `res.cookie`. */
  datatype CookieOptions = CookieOptions(httpOnly: bool, secure: bool, sameSite: string, maxAge: int)

  /** A cookie set on the response: its name, its value and its options. */
  datatype Cookie = Cookie(name: string, value: Token, options: CookieOptions)

  const SessionCookieName: string := "jwt"

  /**
   * The session cookie's options: hidden from page scripts, sent only to the
   * same site, living exactly as long as the token (7 days, written as
   * milliseconds), and restricted to HTTPS exactly when `NODE_ENV` is the
   * string "production".
   */
  function SessionCookieOptions(env: Env): (o: CookieOptions)
    ensures o.httpOnly && o.sameSite == "Strict"
    ensures o.maxAge == TokenLifetimeSeconds * 1000 == 604800000
    ensures o.secure <==> env.nodeEnv == Some("production")
  {
    CookieOptions(
      httpOnly := true,
      secure := env.nodeEnv == Some("production"),
      sameSite := "Strict",
      maxAge := 7 * 24 * 60 * 60 * 1000)
  }

  /** The `jwt` cookie carrying `token`. */
  function SessionCookie(token: Token, env: Env): Cookie
  {
    Cookie(SessionCookieName, token, SessionCookieOptions(env))
  }
}
