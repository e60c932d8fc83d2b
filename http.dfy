/** Cookies as the route handlers set them through `response.cookies`. */
module Http {

  datatype SameSite = Lax | Strict

  datatype CookieOptions = CookieOptions(httpOnly: bool, secure: bool, sameSite: SameSite, maxAge: int)

  /** `cookies.set(name, value, options)` or `cookies.delete(name)`. */
  datatype CookieOp =
    | SetCookie(name: string, value: string, options: CookieOptions)
    | DeleteCookie(name: string)

  /** The options every cookie of the site uses: readable by the server
      only, sent over TLS only in production. */
  function ServerCookie(production: bool, sameSite: SameSite, maxAge: int): (o: CookieOptions)
    ensures o.httpOnly && o.secure == production && o.sameSite == sameSite && o.maxAge == maxAge
  {
    CookieOptions(true, production, sameSite, maxAge)
  }
}
