/** `GET /api/auth/battlenet/callback`: the redirection endpoint of the
    Battle.net login (section 4.1.2 of RFC 6749). It runs an ordered chain
    of checks on the query and the state cookie, exchanges the code for a
    token, links the Battle.net account to a row of `battle_net_users`
    (matching on `battlenet_id`) and opens a seven-day member session.

    The Battle.net calls, the clock, the database's verdicts and the id it
    assigns to a new row are inputs; the table is a map keyed by
    `battlenet_id`. */
module OAuthCallback {

  import opened Common
  import Js
  import Text
  import UrlEncoding
  import BattleNetClient
  import Http
  import OAuthInitiate

  // ---------------------------------------------------------------------
  // The check chain

  /** The query parameters; None when the parameter is absent. */
  datatype Query = Query(code: Option<string>, state: Option<string>, error: Option<string>)

  /** Where a failed login sends the browser. */
  function LoginError(reason: string): string
  {
    "/member/login?error=" + reason
  }

  datatype Check = Rejected(location: string) | Accepted(code: string)

  /** The cookie holds the state this browser was given at initiation, and
      the query carries the same one. */
  predicate StateVerified(q: Query, storedState: Option<string>) {
    Js.Given(storedState) && q.state == storedState
  }

  /** Lines 20-39 in order: a provider error wins over everything, then a
      missing code or state, then a state that does not match the cookie. */
  function CheckRequest(q: Query, storedState: Option<string>): (r: Check)
    ensures Js.Given(q.error) ==> r == Rejected(LoginError(UrlEncoding.Encode(q.error.value, UrlEncoding.Component)))
    ensures !Js.Given(q.error) && (!Js.Given(q.code) || !Js.Given(q.state)) ==> r == Rejected(LoginError("missing_parameters"))
    ensures r.Accepted? <==> !Js.Given(q.error) && Js.Given(q.code) && StateVerified(q, storedState)
    ensures r.Accepted? ==> r.code == q.code.value
    ensures !Js.Given(q.error) && Js.Given(q.code) && Js.Given(q.state) && !StateVerified(q, storedState)
            ==> r == Rejected(LoginError("invalid_state"))
  {
    if Js.Given(q.error) then Rejected(LoginError(UrlEncoding.Encode(q.error.value, UrlEncoding.Component)))
    else if !Js.Given(q.code) || !Js.Given(q.state) then Rejected(LoginError("missing_parameters"))
    else if !Js.Given(storedState) || storedState.value != q.state.value then Rejected(LoginError("invalid_state"))
    else Accepted(q.code.value)
  }

  /** The provider's error reaches the login page intact: it is the whole
      query of the redirect, under the name `error`, and decodes back to
      the text the provider sent. */
  lemma ErrorRedirectCarriesError(e: string)
    ensures BattleNetClient.QueryOf(LoginError(UrlEncoding.Encode(e, UrlEncoding.Component)))
         == "error=" + UrlEncoding.Encode(e, UrlEncoding.Component)
    ensures UrlEncoding.Decode(UrlEncoding.Encode(e, UrlEncoding.Component), UrlEncoding.Component) == Some(e)
  {
    var enc := UrlEncoding.Encode(e, UrlEncoding.Component);
    assert LoginError(enc) == "/member/login" + "?" + ("error=" + enc);
    BattleNetClient.QueryAfterFirstMark("/member/login", "error=" + enc);
    UrlEncoding.DecodeEncode(e, UrlEncoding.Component);
  }

  /** A state that initiation issued and stored passes the state check
      exactly when the query carries that same state. */
  lemma IssuedStateAccepted(random: seq<Text.Byte>, code: string, state: Option<string>)
    requires |random| == 16 && code != ""
    ensures var issued := OAuthInitiate.NewState(random);
      CheckRequest(Query(Some(code), state, None), Some(issued)).Accepted? <==> state == Some(issued)
  {
  }

  // ---------------------------------------------------------------------
  // The account table

  /** What the token endpoint returned (section 5.1 of RFC 6749);
      `refresh_token` may be absent. `expiresIn` is in seconds. */
  datatype TokenResponse = TokenResponse(accessToken: string, refreshToken: Option<string>, expiresIn: int)

  /** What the user-info endpoint returned. */
  datatype UserInfo = UserInfo(id: int, battletag: string)

  /** A row of `battle_net_users`; times are milliseconds since the epoch,
      and None stands for a column the insert leaves to its default. */
  datatype AccountRow = AccountRow(
    id: string,
    battlenetId: int,
    battletag: string,
    accessToken: string,
    refreshToken: string,
    tokenExpiresAt: int,
    lastLogin: Option<int>,
    updatedAt: Option<int>)

  /** Every row sits under its own `battlenet_id`, and no two rows share an
      `id`. */
  predicate WellKeyed(rows: map<int, AccountRow>) {
    (forall k :: k in rows ==> rows[k].battlenetId == k)
    && (forall a, b :: a in rows && b in rows && rows[a].id == rows[b].id ==> a == b)
  }

  /** The id is not taken by any row (the database hands out fresh ids). */
  predicate FreshId(rows: map<int, AccountRow>, id: string) {
    forall k :: k in rows ==> rows[k].id != id
  }

  /** `expiresAt`: now plus the lifetime in seconds. */
  function ExpiresAt(now: int, token: TokenResponse): int
  {
    now + token.expiresIn * 1000
  }

  /** The update of an existing row (lines 63-70). */
  function UpdatedRow(row: AccountRow, user: UserInfo, token: TokenResponse, now: int): AccountRow
  {
    AccountRow(row.id, row.battlenetId, user.battletag, token.accessToken,
               if Js.Given(token.refreshToken) then token.refreshToken.value else row.refreshToken,
               ExpiresAt(now, token), Some(now), Some(now))
  }

  /** The row inserted for a new account (lines 87-93). */
  function NewRow(user: UserInfo, token: TokenResponse, now: int, id: string): AccountRow
  {
    AccountRow(id, user.id, user.battletag, token.accessToken,
               if Js.Given(token.refreshToken) then token.refreshToken.value else "",
               ExpiresAt(now, token), None, None)
  }

  /** The table after a successful write: the row under the account's
      `battlenet_id` is updated if there is one, inserted otherwise. */
  function Saved(rows: map<int, AccountRow>, user: UserInfo, token: TokenResponse, now: int, newId: string): map<int, AccountRow>
  {
    rows[user.id := if user.id in rows then UpdatedRow(rows[user.id], user, token, now) else NewRow(user, token, now, newId)]
  }

  /** Saving never creates a second row for an account: the keys grow by
      at most the one `battlenet_id`, an existing account keeps its id, a
      new one gets the fresh id, every other row is untouched, and the
      table stays well keyed. */
  lemma SavedKeepsOneRowPerAccount(rows: map<int, AccountRow>, user: UserInfo, token: TokenResponse, now: int, newId: string)
    requires WellKeyed(rows) && FreshId(rows, newId)
    ensures var after := Saved(rows, user, token, now, newId);
      && WellKeyed(after)
      && after.Keys == rows.Keys + {user.id}
      && (user.id in rows ==> after.Keys == rows.Keys && after[user.id].id == rows[user.id].id)
      && (user.id !in rows ==> |after| == |rows| + 1 && after[user.id].id == newId)
      && (forall k :: k in rows && k != user.id ==> after[k] == rows[k])
  {
    SavedWellKeyed(rows, user, token, now, newId);
  }

  lemma SavedWellKeyed(rows: map<int, AccountRow>, user: UserInfo, token: TokenResponse, now: int, newId: string)
    requires WellKeyed(rows) && FreshId(rows, newId)
    ensures WellKeyed(Saved(rows, user, token, now, newId))
  {
    var after := Saved(rows, user, token, now, newId);
    var own := after[user.id].id;
    assert user.id in rows ==> own == rows[user.id].id;
    assert user.id !in rows ==> own == newId;
    forall a, b | a in after && b in after && after[a].id == after[b].id
      ensures a == b
    {
      if a != user.id && b != user.id {
        assert after[a] == rows[a] && after[b] == rows[b];
      }
    }
  }

  /** What the account's row holds after saving: the Battle.net tag and
      access token just received and an expiry `expires_in` seconds from
      now, whether the row was updated or inserted. An updated row takes
      the new refresh token only when one was issued, keeps the old one
      otherwise, and records the login time; an inserted row stores the
      issued refresh token or the empty string. */
  lemma SavedRow(rows: map<int, AccountRow>, user: UserInfo, token: TokenResponse, now: int, newId: string)
    requires WellKeyed(rows)
    ensures var row := Saved(rows, user, token, now, newId)[user.id];
      && row.battlenetId == user.id
      && row.battletag == user.battletag
      && row.accessToken == token.accessToken
      && row.tokenExpiresAt == now + token.expiresIn * 1000
      && (user.id in rows ==> row.id == rows[user.id].id && row.lastLogin == Some(now) && row.updatedAt == Some(now))
      && (user.id in rows && Js.Given(token.refreshToken) ==> row.refreshToken == token.refreshToken.value)
      && (user.id in rows && !Js.Given(token.refreshToken) ==> row.refreshToken == rows[user.id].refreshToken)
      && (user.id !in rows ==> row.refreshToken == (if Js.Given(token.refreshToken) then token.refreshToken.value else ""))
  {
  }

  /** Logging in again never loses a stored refresh token. */
  lemma RefreshTokenKept(rows: map<int, AccountRow>, user: UserInfo, token: TokenResponse, now: int, newId: string)
    requires WellKeyed(rows)
    requires user.id in rows && rows[user.id].refreshToken != ""
    ensures Saved(rows, user, token, now, newId)[user.id].refreshToken != ""
  {
  }

  /** Whether the write of lines 59-105 fails: the database says so, or
      the insert (taken whenever the lookup reported an error) meets a
      `battlenet_id` that already has a row, which the table's unique key
      refuses. */
  predicate WriteRejected(rows: map<int, AccountRow>, user: UserInfo, lookupFails: bool, writeFails: bool) {
    writeFails || (lookupFails && user.id in rows)
  }

  // ---------------------------------------------------------------------
  // The handler

  /** The session the JWT carries (`jwt.sign` itself is a parameter). */
  datatype Claims = Claims(userId: string, battlenetId: int, battletag: string, kind: string)

  const SessionCookie := "member-token"
  const SessionLifetime := 604800

  /** A redirect with the cookies it sets and, on success, the session
      claims it signed. */
  datatype Response = Redirect(location: string, cookies: seq<Http.CookieOp>, session: Option<Claims>)

  /** The outside calls the handler makes, in order. */
  datatype Call =
    | ExchangeCode(request: BattleNetClient.TokenRequest)
    | FetchUserInfo(accessToken: string)
    | FindAccount(battlenetId: int)
    | UpdateAccount(id: string)
    | InsertAccount(battlenetId: int)
    | LogLogin(battletag: string)

  predicate IsExchange(c: Call) { c.ExchangeCode? }

  /** The code is exchanged at most once, as the first call. */
  predicate ExchangeOnlyFirst(calls: seq<Call>) {
    forall i :: 0 <= i < |calls| && IsExchange(calls[i]) ==> i == 0
  }

  lemma AppendKeepsExchangeFirst(calls: seq<Call>, c: Call)
    requires ExchangeOnlyFirst(calls) && !IsExchange(c)
    ensures ExchangeOnlyFirst(calls + [c])
  {
    var after := calls + [c];
    forall i | 0 <= i < |after| && IsExchange(after[i])
      ensures i == 0
    {
      if i < |calls| {
        assert after[i] == calls[i];
      }
    }
  }

  class AccountTable {
    var rows: map<int, AccountRow>

    ghost predicate Valid()
      reads this
    {
      WellKeyed(rows)
    }

    constructor (initial: map<int, AccountRow>)
      requires WellKeyed(initial)
      ensures Valid() && rows == initial
    {
      rows := initial;
    }

    /** Lines 51-105: look the account up by `battlenet_id`, then update
        its row or insert one. The lookup's error is not checked, so when
        it fails (`lookupFails`) the insert is taken even for an account
        that has a row. `writeFails` is the database's answer to the write;
        `newId` is the id it assigns to an inserted row. */
    method SaveAccount(user: UserInfo, token: TokenResponse, now: int, lookupFails: bool, writeFails: bool, newId: string)
      returns (userId: Option<string>)
      requires Valid() && FreshId(rows, newId)
      modifies this
      ensures Valid()
      ensures WriteRejected(old(rows), user, lookupFails, writeFails) ==> userId.None? && rows == old(rows)
      ensures !WriteRejected(old(rows), user, lookupFails, writeFails) ==>
                rows == Saved(old(rows), user, token, now, newId) && userId == Some(rows[user.id].id)
    {
      SavedKeepsOneRowPerAccount(rows, user, token, now, newId);
      if !lookupFails && user.id in rows {
        var existing := rows[user.id];
        if writeFails {
          return None;
        }
        rows := rows[user.id := UpdatedRow(existing, user, token, now)];
        userId := Some(existing.id);
      } else {
        if writeFails || user.id in rows {
          return None;
        }
        rows := rows[user.id := NewRow(user, token, now, newId)];
        userId := Some(newId);
      }
    }

    /** The whole handler. `tokenReply` and `userReply` answer the code
        exchange and the user-info request; `sign` is `jwt.sign` with the
        server's secret. */
    method Callback(
      client: BattleNetClient.Client, q: Query, storedState: Option<string>,
      tokenReply: BattleNetClient.Reply<TokenResponse>, userReply: BattleNetClient.Reply<UserInfo>,
      lookupFails: bool, writeFails: bool, newId: string, now: int, production: bool, sign: Claims -> string)
      returns (r: Response, calls: seq<Call>)
      requires Valid() && FreshId(rows, newId)
      modifies this
      ensures Valid()
      // No token exchange, indeed no outside call at all, unless the state
      // was verified; the first call is the exchange of the query's code.
      ensures calls != [] ==> StateVerified(q, storedState) && Js.Given(q.code)
                              && calls[0] == ExchangeCode(BattleNetClient.CodeExchange(client, q.code.value))
      ensures ExchangeOnlyFirst(calls)
      ensures CheckRequest(q, storedState).Rejected? ==>
                r == Redirect(CheckRequest(q, storedState).location, [], None) && calls == [] && rows == old(rows)
      // A failed exchange or user-info request (non-2xx or rejected) throws
      // into the handler's catch.
      ensures CheckRequest(q, storedState).Accepted? && (!BattleNetClient.Ok(tokenReply) || !BattleNetClient.Ok(userReply)) ==>
                r == Redirect(LoginError("authentication_failed"), [], None) && rows == old(rows)
      ensures CheckRequest(q, storedState).Accepted? && BattleNetClient.Ok(tokenReply) && BattleNetClient.Ok(userReply)
              && WriteRejected(old(rows), userReply.body, lookupFails, writeFails) ==>
                r == Redirect(LoginError("database_error"), [], None) && rows == old(rows)
      ensures r.session.Some? <==> CheckRequest(q, storedState).Accepted? && BattleNetClient.Ok(tokenReply) && BattleNetClient.Ok(userReply)
                                   && !WriteRejected(old(rows), userReply.body, lookupFails, writeFails)
      ensures r.session.Some? ==>
                && rows == Saved(old(rows), userReply.body, tokenReply.body, now, newId)
                && r.session.value == Claims(rows[userReply.body.id].id, userReply.body.id, userReply.body.battletag, "member")
                && r.location == "/member/dashboard"
                && r.cookies == [Http.SetCookie(SessionCookie, sign(r.session.value), Http.ServerCookie(production, Http.Strict, SessionLifetime)),
                                 Http.DeleteCookie(OAuthInitiate.StateCookie)]
    {
      var check := CheckRequest(q, storedState);
      if check.Rejected? {
        return Redirect(check.location, [], None), [];
      }
      calls := [ExchangeCode(BattleNetClient.CodeExchange(client, check.code))];
      var token := BattleNetClient.Receive(BattleNetClient.AccessToken, tokenReply);
      if !token.Returned? {
        return Redirect(LoginError("authentication_failed"), [], None), calls;
      }
      AppendKeepsExchangeFirst(calls, FetchUserInfo(token.value.accessToken));
      calls := calls + [FetchUserInfo(token.value.accessToken)];
      var user := BattleNetClient.Receive(BattleNetClient.UserInfo, userReply);
      if !user.Returned? {
        return Redirect(LoginError("authentication_failed"), [], None), calls;
      }
      var info := user.value;
      AppendKeepsExchangeFirst(calls, FindAccount(info.id));
      calls := calls + [FindAccount(info.id)];
      var write := if !lookupFails && info.id in rows then UpdateAccount(rows[info.id].id) else InsertAccount(info.id);
      AppendKeepsExchangeFirst(calls, write);
      calls := calls + [write];
      var userId := SaveAccount(info, token.value, now, lookupFails, writeFails, newId);
      if userId.None? {
        return Redirect(LoginError("database_error"), [], None), calls;
      }
      AppendKeepsExchangeFirst(calls, LogLogin(info.battletag));
      calls := calls + [LogLogin(info.battletag)];
      var claims := Claims(userId.value, info.id, info.battletag, "member");
      r := Redirect("/member/dashboard",
                    [Http.SetCookie(SessionCookie, sign(claims), Http.ServerCookie(production, Http.Strict, SessionLifetime)),
                     Http.DeleteCookie(OAuthInitiate.StateCookie)],
                    Some(claims));
    }
  }
}
