/** `GET /api/auth/battlenet`: starts the Battle.net login (the
    authorization request of section 4.1.1 of RFC 6749). A fresh `state`
    value is sent along in the authorization URL and kept in a short-lived
    cookie, so that the callback can tell its own redirect from a forged
    one (section 10.12 of RFC 6749). */
module OAuthInitiate {

  import opened Common
  import Text
  import UrlEncoding
  import BattleNetClient
  import Http

  const StateCookie := "battlenet_oauth_state"
  const StateLifetime := 600

  datatype Response =
    | Redirect(location: string, cookie: Http.CookieOp)
    | Failure(status: int, error: string)

  /** `randomBytes(16).toString('hex')`. */
  function NewState(random: seq<Text.Byte>): (state: string)
    requires |random| == 16
    ensures |state| == 32
    ensures forall i :: 0 <= i < |state| ==> Text.IsLowerHex(state[i])
  {
    Text.Hex(random)
  }

  /** The handler. `random` is what `randomBytes(16)` produced, or None when
      it threw; `production` is `NODE_ENV === 'production'`. */
  function Initiate(c: BattleNetClient.Client, random: Option<seq<Text.Byte>>, production: bool): (r: Response)
    requires random.Some? ==> |random.value| == 16
    ensures random.None? <==> r == Failure(500, "Failed to initiate Battle.net login")
    ensures r.Redirect? ==> r.cookie.SetCookie? && r.cookie.name == StateCookie
    ensures r.Redirect? ==> r.cookie.options == Http.CookieOptions(true, production, Http.Lax, 600)
  {
    match random
    case None => Failure(500, "Failed to initiate Battle.net login")
    case Some(bytes) =>
      var state := NewState(bytes);
      Redirect(BattleNetClient.AuthorizationUrl(c, state),
               Http.SetCookie(StateCookie, state, Http.ServerCookie(production, Http.Lax, StateLifetime)))
  }

  /** The state in the authorization URL is the value stored in the cookie,
      and it is the hex rendering of the random bytes. */
  lemma UrlStateMatchesCookie(c: BattleNetClient.Client, random: seq<Text.Byte>, production: bool)
    requires |random| == 16
    ensures var r := Initiate(c, Some(random), production);
      r.Redirect?
      && UrlEncoding.ParseQuery(BattleNetClient.QueryOf(r.location)).Some?
      && BattleNetClient.Get(UrlEncoding.ParseQuery(BattleNetClient.QueryOf(r.location)).value, "state") == Some(r.cookie.value)
      && Text.Unhex(r.cookie.value) == Some(random)
  {
    var state := NewState(random);
    BattleNetClient.AuthorizationUrlCarriesParams(c, state);
    BattleNetClient.AuthorizationParamsValues(c, state);
    Text.UnhexHex(random);
  }
}
