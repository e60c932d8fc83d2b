/** The Battle.net API client (src/lib/battlenet.ts): region tables, the
    OAuth 2.0 authorization URL and token requests (RFC 6749), the request
    URLs of the profile endpoints, what each endpoint does with a failed
    response, and the flattening of the account list into characters.
    The client's fields are set once in its constructor, so a client is a
    value here. HTTP itself is not modelled: a reply is an input. */
module BattleNetClient {

  import opened Common
  import Text
  import UrlEncoding

  // ---------------------------------------------------------------------
  // Configuration

  const DefaultRedirectUri := "http://localhost:3000/api/auth/battlenet/callback"
  const DefaultRegion := "eu"

  /** `process.env.X || fallback`: an unset or empty variable takes the
      fallback. */
  function EnvOr(v: Option<string>, fallback: string): (r: string)
    ensures v.Some? && v.value != "" ==> r == v.value
    ensures v.None? || v.value == "" ==> r == fallback
  {
    match v
    case Some(x) => if x != "" then x else fallback
    case None => fallback
  }

  /** The four environment variables the client reads. */
  datatype Env = Env(
    clientId: Option<string>,
    clientSecret: Option<string>,
    redirectUri: Option<string>,
    region: Option<string>)

  datatype Client = Client(region: string, clientId: string, clientSecret: string, redirectUri: string)

  /** `new BattleNetAPI()` with the module-level defaults. */
  function NewClient(env: Env): (c: Client)
    ensures c.region != "" && c.redirectUri != ""
    ensures env.region.None? ==> c.region == DefaultRegion
    ensures env.redirectUri.None? ==> c.redirectUri == DefaultRedirectUri
  {
    Client(
      EnvOr(env.region, DefaultRegion),
      EnvOr(env.clientId, ""),
      EnvOr(env.clientSecret, ""),
      EnvOr(env.redirectUri, DefaultRedirectUri))
  }

  // ---------------------------------------------------------------------
  // Region tables

  /** `OAUTH_URLS[region]`; None for a region the table lacks. */
  function OAuthBase(region: string): Option<string>
  {
    if region in {"us", "eu", "kr", "tw"} then Some("https://oauth.battle.net")
    else if region == "cn" then Some("https://oauth.battlenet.com.cn")
    else None
  }

  /** `API_URLS[region]`. */
  function ApiBase(region: string): Option<string>
  {
    if region in {"us", "eu", "kr", "tw"} then Some("https://" + region + ".api.blizzard.com")
    else if region == "cn" then Some("https://gateway.battlenet.com.cn")
    else None
  }

  /** A looked-up base inside a template literal: a missing entry renders
      as the text "undefined". */
  function Render(base: Option<string>): string
  {
    match base
    case Some(b) => b
    case None => "undefined"
  }

  /** Every region except cn shares the global OAuth host; cn has its own,
      and every known region has an API host of its own. */
  lemma RegionHosts(region: string)
    ensures region in {"us", "eu", "kr", "tw"} ==> OAuthBase(region) == Some("https://oauth.battle.net")
    ensures OAuthBase("cn").Some? && OAuthBase("cn") != OAuthBase("eu")
    ensures OAuthBase(region).Some? <==> ApiBase(region).Some?
    ensures forall r :: r in {"us", "eu", "kr", "tw", "cn"} && r != region && ApiBase(region).Some? ==>
      ApiBase(r) != ApiBase(region)
  {
    forall r | r in {"us", "eu", "kr", "tw", "cn"} && r != region && ApiBase(region).Some?
      ensures ApiBase(r) != ApiBase(region) {
      if region != "cn" && r != "cn" {
        assert ("https://" + region + ".api.blizzard.com")[8..10] == region;
        assert ("https://" + r + ".api.blizzard.com")[8..10] == r;
      }
    }
  }

  /** No rendered base contains '?', so the query of a URL built on it is
      the part after the first '?'. */
  lemma RenderedBaseHasNoQuery(base: Option<string>)
    requires base == None || base == OAuthBase("eu") || base == OAuthBase("cn")
    ensures '?' !in Render(base)
  {
  }

  // ---------------------------------------------------------------------
  // Authorization request (section 4.1.1 of RFC 6749)

  /** The parameters of `getAuthorizationUrl`, in insertion order. */
  function AuthorizationParams(c: Client, state: string): seq<(string, string)>
  {
    [("client_id", c.clientId),
     ("redirect_uri", c.redirectUri),
     ("response_type", "code"),
     ("scope", "wow.profile"),
     ("state", state)]
  }

  /** `getAuthorizationUrl(state)`. */
  function AuthorizationUrl(c: Client, state: string): string
  {
    WithQuery(Render(OAuthBase(c.region)) + "/authorize", AuthorizationParams(c, state))
  }

  /** `${prefix}?${params.toString()}`. */
  function WithQuery(prefix: string, pairs: seq<(string, string)>): string
  {
    prefix + "?" + UrlEncoding.Serialize(pairs)
  }

  /** The query part of a URL: everything after its first '?'. */
  function QueryOf(url: string): string
  {
    var parts := Text.Split(url, '?');
    if |parts| < 2 then "" else Text.Join(parts[1..], "?")
  }

  /** `URLSearchParams.get(name)`: the value of the first pair with that
      name. */
  function Get(pairs: seq<(string, string)>, name: string): (r: Option<string>)
    ensures r.Some? ==> (name, r.value) in pairs
    ensures r.None? ==> forall i :: 0 <= i < |pairs| ==> pairs[i].0 != name
  {
    if pairs == [] then None
    else if pairs[0].0 == name then Some(pairs[0].1)
    else
      var r := Get(pairs[1..], name);
      assert forall i :: 1 <= i < |pairs| ==> pairs[i] == pairs[1..][i - 1];
      r
  }

  lemma {:induction false} QueryAfterFirstMark(prefix: string, q: string)
    requires '?' !in prefix
    ensures QueryOf(prefix + "?" + q) == q
  {
    Text.SplitFirst(prefix, '?', q);
    Text.JoinSplit(q, '?');
    assert prefix + "?" + q == prefix + ['?'] + q;
    var parts := Text.Split(prefix + ['?'] + q, '?');
    assert parts[1..] == Text.Split(q, '?');
  }

  /** The query of `prefix?serialised` parses back to the serialised pairs
      when the prefix has no '?'. */
  lemma QueryRoundTrip(prefix: string, pairs: seq<(string, string)>)
    requires '?' !in prefix
    ensures UrlEncoding.ParseQuery(QueryOf(WithQuery(prefix, pairs))) == Some(pairs)
  {
    QueryAfterFirstMark(prefix, UrlEncoding.Serialize(pairs));
    UrlEncoding.ParseSerialize(pairs);
  }

  /** The authorization URL's query parses back to exactly the
      authorization parameters, in order. */
  lemma AuthorizationUrlCarriesParams(c: Client, state: string)
    ensures UrlEncoding.ParseQuery(QueryOf(AuthorizationUrl(c, state))) == Some(AuthorizationParams(c, state))
  {
    var base := Render(OAuthBase(c.region));
    RenderedBaseHasNoQuery(OAuthBase(c.region));
    var prefix := base + "/authorize";
    assert '?' !in prefix by {
      assert forall i :: 0 <= i < |prefix| ==> prefix[i] == if i < |base| then base[i] else "/authorize"[i - |base|];
    }
    QueryRoundTrip(prefix, AuthorizationParams(c, state));
  }

  /** The first pair with a name, found at index i. */
  lemma {:induction false} GetAt(pairs: seq<(string, string)>, i: nat, name: string)
    requires i < |pairs| && pairs[i].0 == name
    requires forall j :: 0 <= j < i ==> pairs[j].0 != name
    ensures Get(pairs, name) == Some(pairs[i].1)
  {
    if i > 0 {
      GetAt(pairs[1..], i - 1, name);
    }
  }

  /** Those parameters are client_id, redirect_uri, response_type=code,
      scope=wow.profile and the given state (section 4.1.1 of RFC 6749). */
  lemma AuthorizationParamsValues(c: Client, state: string)
    ensures Get(AuthorizationParams(c, state), "client_id") == Some(c.clientId)
    ensures Get(AuthorizationParams(c, state), "redirect_uri") == Some(c.redirectUri)
    ensures Get(AuthorizationParams(c, state), "response_type") == Some("code")
    ensures Get(AuthorizationParams(c, state), "scope") == Some("wow.profile")
    ensures Get(AuthorizationParams(c, state), "state") == Some(state)
  {
    var ps := AuthorizationParams(c, state);
    assert ps[0].0 == "client_id" && ps[1].0 == "redirect_uri" && ps[2].0 == "response_type";
    assert ps[3].0 == "scope" && ps[4].0 == "state";
    DistinctNames(ps);
    assert Get(ps, ps[0].0) == Some(ps[0].1);
    assert Get(ps, ps[1].0) == Some(ps[1].1);
    assert Get(ps, ps[2].0) == Some(ps[2].1);
    assert Get(ps, ps[3].0) == Some(ps[3].1);
    assert Get(ps, ps[4].0) == Some(ps[4].1);
  }

  /** In a list of distinct names, every name is found with its value. */
  lemma DistinctNames(pairs: seq<(string, string)>)
    requires forall i, j :: 0 <= i < j < |pairs| ==> pairs[i].0 != pairs[j].0
    ensures forall i :: 0 <= i < |pairs| ==> Get(pairs, pairs[i].0) == Some(pairs[i].1)
  {
    forall i | 0 <= i < |pairs|
      ensures Get(pairs, pairs[i].0) == Some(pairs[i].1)
    {
      GetAt(pairs, i, pairs[i].0);
    }
  }

  // ---------------------------------------------------------------------
  // Token requests (sections 4.1.3, 6 and 2.3.1 of RFC 6749)

  /** A POST to the token endpoint. `basicCredentials` is the text that is
      base64-encoded into the Authorization header. */
  datatype TokenRequest = TokenRequest(
    url: string,
    basicCredentials: string,
    contentType: string,
    body: seq<(string, string)>)

  function Credentials(c: Client): string
  {
    c.clientId + ":" + c.clientSecret
  }

  /** `getAccessToken(code)`: the authorization-code grant. */
  function CodeExchange(c: Client, code: string): TokenRequest
  {
    TokenRequest(TokenUrl(c), Credentials(c), FormContentType, CodeExchangeBody(c, code))
  }

  function CodeExchangeBody(c: Client, code: string): seq<(string, string)>
  {
    [("grant_type", "authorization_code"), ("code", code), ("redirect_uri", c.redirectUri)]
  }

  function TokenUrl(c: Client): string
  {
    Render(OAuthBase(c.region)) + "/token"
  }

  const FormContentType := "application/x-www-form-urlencoded"

  /** `refreshAccessToken(refreshToken)`: the refresh-token grant. */
  function RefreshExchange(c: Client, refreshToken: string): TokenRequest
  {
    TokenRequest(TokenUrl(c), Credentials(c), FormContentType, RefreshBody(refreshToken))
  }

  function RefreshBody(refreshToken: string): seq<(string, string)>
  {
    [("grant_type", "refresh_token"), ("refresh_token", refreshToken)]
  }

  /** The code exchange names the authorization-code grant, carries the code
      and repeats the redirect_uri of the authorization request; its body
      serialises and parses back unchanged. */
  lemma CodeExchangeMatchesAuthorization(c: Client, state: string, code: string)
    ensures CodeExchange(c, code).url == TokenUrl(c)
    ensures Get(CodeExchange(c, code).body, "grant_type") == Some("authorization_code")
    ensures Get(CodeExchange(c, code).body, "code") == Some(code)
    ensures Get(CodeExchange(c, code).body, "redirect_uri") == Get(AuthorizationParams(c, state), "redirect_uri")
    ensures UrlEncoding.ParseQuery(UrlEncoding.Serialize(CodeExchange(c, code).body)) == Some(CodeExchange(c, code).body)
  {
    var body := CodeExchangeBody(c, code);
    GetAt(body, 0, "grant_type");
    GetAt(body, 1, "code");
    GetAt(body, 2, "redirect_uri");
    GetAt(AuthorizationParams(c, state), 1, "redirect_uri");
    UrlEncoding.ParseSerialize(body);
  }

  /** The refresh request names the refresh-token grant and carries exactly
      the given token. */
  lemma RefreshCarriesToken(c: Client, refreshToken: string)
    ensures Get(RefreshExchange(c, refreshToken).body, "grant_type") == Some("refresh_token")
    ensures Get(RefreshExchange(c, refreshToken).body, "refresh_token") == Some(refreshToken)
    ensures UrlEncoding.ParseQuery(UrlEncoding.Serialize(RefreshExchange(c, refreshToken).body))
      == Some(RefreshExchange(c, refreshToken).body)
  {
    var body := RefreshBody(refreshToken);
    GetAt(body, 0, "grant_type");
    GetAt(body, 1, "refresh_token");
    UrlEncoding.ParseSerialize(body);
  }

  /** HTTP Basic (RFC 7617, section 2): the client id is the text before
      the first ':' of the credentials, as long as the id itself has none. */
  lemma CredentialsSplit(c: Client)
    requires ':' !in c.clientId
    ensures Text.Split(Credentials(c), ':')[0] == c.clientId
    ensures Text.Join(Text.Split(Credentials(c), ':')[1..], ":") == c.clientSecret
  {
    Text.SplitFirst(c.clientId, ':', c.clientSecret);
    assert Credentials(c) == c.clientId + [':'] + c.clientSecret;
    Text.JoinSplit(c.clientSecret, ':');
  }

  // ---------------------------------------------------------------------
  // Endpoints and their failure policy

  datatype Bracket = TwoVsTwo | ThreeVsThree | RatedBattleground

  /** The `bracketMap` of getCharacterPvPBracket. */
  function BracketSlug(b: Bracket): string
  {
    match b
    case TwoVsTwo => "pvp-bracket-2v2"
    case ThreeVsThree => "pvp-bracket-3v3"
    case RatedBattleground => "pvp-bracket-rbg"
  }

  /** Each bracket has its own slug, and every slug is "pvp-bracket-" followed
      by the bracket's name ('2v2', '3v3', 'rbg'). */
  lemma BracketSlugsDistinct(a: Bracket, b: Bracket)
    ensures BracketSlug(a) == BracketSlug(b) <==> a == b
    ensures BracketSlug(a)[..12] == "pvp-bracket-" && |BracketSlug(a)| == 15
  {
  }

  datatype Endpoint =
    | AccessToken
    | RefreshToken
    | UserInfo
    | WowCharacters
    | CharacterProfile
    | CharacterMedia
    | CharacterEquipment
    | MythicKeystoneProfile
    | RaidProgress
    | PvpBracket(bracket: Bracket)
    | PvpSummary
    | CompletedQuests

  /** The endpoints whose failure is an exception; the others return null. */
  predicate ThrowsOnFailure(e: Endpoint) {
    e.AccessToken? || e.RefreshToken? || e.UserInfo? || e.WowCharacters? || e.CharacterProfile?
  }

  /** The message an exception starts with. */
  function FailurePrefix(e: Endpoint): string
  {
    match e
    case AccessToken => "Failed to get access token: "
    case RefreshToken => "Failed to refresh token: "
    case UserInfo => "Failed to get user info: "
    case WowCharacters => "Failed to get WoW characters: "
    case CharacterProfile => "Failed to get character profile: "
    case _ => ""
  }

  /** How a request ended: a response with its status, its text and its
      parsed body, or a rejection of the `fetch` (network failure, or a body
      that is not JSON) carrying its error. */
  datatype Reply<T> = Response(status: int, text: string, body: T) | Rejected(error: string)

  /** `response.ok`. */
  predicate Ok<T>(r: Reply<T>) { r.Response? && 200 <= r.status <= 299 }

  /** What a client method makes of a request. */
  datatype Outcome<T> = Returned(value: T) | ReturnedNull | Thrown(message: string)

  /** A 2xx response returns its body; any other response throws for the
      token, refresh, user-info, character-list and profile calls, with the
      response text after the method's prefix, and makes every enrichment
      call return null; a rejected request throws from every method. */
  function Receive<T>(e: Endpoint, reply: Reply<T>): Outcome<T>
  {
    match reply
    case Rejected(error) => Thrown(error)
    case Response(status, text, body) =>
      if 200 <= status <= 299 then Returned(body)
      else if ThrowsOnFailure(e) then Thrown(FailurePrefix(e) + text)
      else ReturnedNull
  }

  /** The URL of an endpoint that is about one character. */
  function CharacterUrl(c: Client, e: Endpoint, realmSlug: string, name: string): string
  {
    Render(ApiBase(c.region)) + CharacterPath(realmSlug, name)
      + CharacterResource(e) + "?namespace=profile-" + c.region + "&locale=de_DE"
  }

  /** The character's part of the path: the name is lower-cased (and not
      otherwise encoded); the realm slug is used as given. */
  function CharacterPath(realmSlug: string, name: string): string
  {
    "/profile/wow/character/" + realmSlug + "/" + Text.ToLower(name)
  }

  function CharacterResource(e: Endpoint): string
  {
    match e
    case CharacterMedia => "/character-media"
    case CharacterEquipment => "/equipment"
    case MythicKeystoneProfile => "/mythic-keystone-profile"
    case RaidProgress => "/encounters/raids"
    case PvpBracket(b) => "/pvp-bracket/" + BracketSlug(b)
    case PvpSummary => "/pvp-summary"
    case CompletedQuests => "/quests/completed"
    case _ => ""
  }

  /** The character list's URL. */
  function CharactersUrl(c: Client): string
  {
    Render(ApiBase(c.region)) + "/profile/user/wow?namespace=profile-" + c.region + "&locale=de_DE"
  }

  /** Character URLs do not depend on the case of the name, and the name
      segment has no upper-case letter. */
  lemma CharacterUrlUsesLowerCaseName(c: Client, e: Endpoint, realmSlug: string, a: string, b: string)
    ensures Text.ToLower(a) == Text.ToLower(b) ==> CharacterUrl(c, e, realmSlug, a) == CharacterUrl(c, e, realmSlug, b)
    ensures forall i :: 0 <= i < |Text.ToLower(a)| ==> !Text.IsUpper(Text.ToLower(a)[i])
  {
  }

  /** The realm slug and the lower-cased name appear verbatim right after the
      API host. */
  lemma CharacterUrlSegments(c: Client, e: Endpoint, realmSlug: string, name: string)
    ensures Text.OccursAt(CharacterUrl(c, e, realmSlug, name), CharacterPath(realmSlug, name),
      |Render(ApiBase(c.region))|)
  {
    var base := Render(ApiBase(c.region));
    var tail := CharacterResource(e) + "?namespace=profile-" + c.region + "&locale=de_DE";
    assert CharacterUrl(c, e, realmSlug, name) == base + CharacterPath(realmSlug, name) + tail;
    Text.OccursInMiddle(base, CharacterPath(realmSlug, name), tail);
  }

  // ---------------------------------------------------------------------
  // getWoWCharacters

  datatype Realm = Realm(name: string, slug: string)

  /** A character summary from the account profile. */
  datatype CharacterSummary = CharacterSummary(
    id: int,
    name: string,
    realm: Realm,
    playableClass: string,
    playableRace: string,
    gender: string,
    faction: string,
    level: int,
    lastLoginTimestamp: Option<int>)

  /** One WoW account; `characters` may be absent. */
  datatype Account = Account(characters: Option<seq<CharacterSummary>>)

  /** `data.wow_accounts?.flatMap(a => a.characters || []) || []`. */
  function FlattenCharacters(accounts: Option<seq<Account>>): seq<CharacterSummary>
  {
    match accounts
    case None => []
    case Some(list) => FlattenAccounts(list)
  }

  /** `getWoWCharacters`: `reply` is the account profile's `wow_accounts`.
      A failed request throws; a 2xx one returns the flattened characters. */
  function CharacterList(reply: Reply<Option<seq<Account>>>): (o: Outcome<seq<CharacterSummary>>)
    ensures o.Returned? <==> Ok(reply)
    ensures o.Returned? ==> o.value == FlattenCharacters(reply.body)
    ensures !o.Returned? ==> o.Thrown?
  {
    match Receive(WowCharacters, reply)
    case Returned(accounts) => Returned(FlattenCharacters(accounts))
    case ReturnedNull => ReturnedNull
    case Thrown(m) => Thrown(m)
  }

  function FlattenAccounts(list: seq<Account>): seq<CharacterSummary>
  {
    if list == [] then [] else CharactersOf(list[0]) + FlattenAccounts(list[1..])
  }

  function CharactersOf(a: Account): seq<CharacterSummary>
  {
    match a.characters
    case Some(cs) => cs
    case None => []
  }

  /** Flattening distributes over concatenation of the account list, so the
      characters keep the order of their accounts. */
  lemma {:induction false} FlattenAppend(a: seq<Account>, b: seq<Account>)
    ensures FlattenAccounts(a + b) == FlattenAccounts(a) + FlattenAccounts(b)
  {
    if a == [] {
      assert a + b == b;
    } else {
      assert (a + b)[1..] == a[1..] + b;
      FlattenAppend(a[1..], b);
    }
  }

  /** A character is in the flattened list exactly when one of the accounts
      lists it; accounts without characters contribute nothing. */
  lemma {:induction false} FlattenMembership(list: seq<Account>, ch: CharacterSummary)
    ensures ch in FlattenAccounts(list) <==> exists i :: 0 <= i < |list| && ch in CharactersOf(list[i])
  {
    if list != [] {
      FlattenMembership(list[1..], ch);
      assert forall i :: 1 <= i < |list| ==> list[i] == list[1..][i - 1];
      if ch in FlattenAccounts(list[1..]) {
        var j :| 0 <= j < |list[1..]| && ch in CharactersOf(list[1..][j]);
        assert ch in CharactersOf(list[j + 1]);
      }
    }
  }

  /** The flattened list is as long as all accounts' lists together; a
      missing account list gives no characters. */
  lemma {:induction false} FlattenLength(list: seq<Account>)
    ensures |FlattenAccounts(list)| == Sum(list, (a: Account) => |CharactersOf(a)|)
  {
    if list != [] {
      FlattenLength(list[1..]);
    }
  }

  lemma FlattenMissing()
    ensures FlattenCharacters(None) == []
    ensures FlattenCharacters(Some([Account(None)])) == []
  {
  }
}
