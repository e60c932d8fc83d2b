# Guild website core, modelled in Dafny

This project models the logic of a Next.js guild website for a World of
Warcraft raiding guild. It covers:

- the Battle.net login (an OAuth 2.0 authorization-code flow, RFC 6749)
  and the session it issues;
- the member character sync against the Battle.net profile API;
- the raid-week arithmetic behind the weekly overview;
- the admin API routes (events, raid bosses, settings) and the public ones
  (applications, raids, settings);
- the `/admin` gate in the middleware;
- the list logic of the admin pages (applications, members, raids,
  dashboard), the member weekly-overview page and the public sections
  (roster, gallery, application form).

The database tables are maps keyed by each table's uniqueness key:

- accounts by `battlenet_id`;
- characters by `(user_id, character_id)`;
- settings by `setting_key`.

A table that a handler changes is a class whose methods update the map:
`OAuthCallback.AccountTable`, `CharacterSync.CharacterTable` and
`AdminSettingsRoute.SettingsTable`. The answers of Battle.net and of
read queries are parameters, as are the clock, the random bytes and the
JWT signer and verifier. Each is an `Option` where the code tolerates
absence or catches a throw.

Some JavaScript behaviour the handlers rely on is spelled out in shared
modules:

- `Js`: truthiness, `||`, `String()` and `parseInt`;
- `Text`: `toLowerCase`, `includes`, `split`/`join`, `trim` and hex
  rendering;
- `UrlEncoding`: `URLSearchParams` and `encodeURIComponent` over UTF-8,
  with their decoders;
- `Ordering`: a stable sort by key, standing for `Array.prototype.sort`
  and the database's `.order(...)`;
- `Common`: `filter`, counting and summing.

Modules follow the source files, one module per core file. Paths below
are relative to the repository root.

## Model

| member | source | states |
|---|---|---|
| WeeklyOverviewRoute.DaysFromTuesday | src/app/api/member/weekly-overview/route.ts:12 | The offset since Tuesday lies in 0..6, and the weekday minus the offset is Tuesday modulo 7. |
| WeeklyOverviewRoute.DaysFromTuesdayValues | src/app/api/member/weekly-overview/route.ts:11-12 | Tuesday is offset 0, Wednesday 1, Sunday 5 and Monday 6. |
| WeeklyOverviewRoute.WeekStart | src/app/api/member/weekly-overview/route.ts:9-19 | The week start is a Tuesday, never after today, and fewer than seven days before it. |
| WeeklyOverviewRoute.WeekStartConstantOverWeek | src/app/api/member/weekly-overview/route.ts:14-16 | Any two instants in the same raid week, including two on the same calendar day, give the same week start. |
| WeeklyOverviewRoute.WeekStartOfTuesday | src/app/api/member/weekly-overview/route.ts:9-19 | On a Tuesday the week start is that very day. |
| WeeklyOverviewRoute.Get | src/app/api/member/weekly-overview/route.ts:25-75 | A query error, and only a query error, gives a 500. Otherwise the week starts on `WeekStart(now)`, the Tuesday on or before today. Every returned activity belongs to a main character, every main-character row is returned, and the total counts every fetched row. Absent data gives [] and a total of 0. |
| WeeklyOverviewRoute.ActivitiesAreMainRows | src/app/api/member/weekly-overview/route.ts:61-66 | Each fetched row of a main character is returned as often as it was fetched, any other row never, and the total is the number of fetched rows. |
| WeeklyOverviewRoute.TotalBoundsActivities | src/app/api/member/weekly-overview/route.ts:61-66 | `totalActivities` counts the unfiltered rows, so it is at least the number of activities returned. |
| WeeklyOverviewRoute.ActivitiesInFetchedOrder | src/app/api/member/weekly-overview/route.ts:61 | The main-character filter keeps the fetched order: splitting the fetched rows splits the response. |
| WeeklyOverviewRoute.FetchWeekOrdered | src/app/api/member/weekly-overview/route.ts:30-50 | The fetched rows are exactly that week's rows, ordered by mythic+ runs, most runs first. |
| OAuthInitiate.NewState | src/app/api/auth/battlenet/route.ts:14 | The state is 32 lower-case hexadecimal characters. |
| OAuthInitiate.Initiate | src/app/api/auth/battlenet/route.ts:11-39 | A failure gives a 500 JSON error rather than a redirect. A success sets the `battlenet_oauth_state` cookie as httpOnly, SameSite=lax, secure only in production, lasting 600 s. |
| OAuthInitiate.UrlStateMatchesCookie | src/app/api/auth/battlenet/route.ts:14-28 | The `state` parameter of the authorization URL equals the cookie's value, and that value is the hex rendering of the random bytes. |
| Text.UnhexHex | src/app/api/auth/battlenet/route.ts:14 | The hex rendering of bytes reads back to the same bytes. |
| OAuthCallback.CheckRequest | src/app/api/auth/battlenet/callback/route.ts:17-42 | The checks run in order. A provider `error` wins over everything. A missing code or state comes next. A state that does not equal the cookie's is rejected. The request is accepted exactly when no error is given, a code is present and the state is verified. |
| OAuthCallback.ErrorRedirectCarriesError | src/app/api/auth/battlenet/callback/route.ts:20-24 | The login redirect's query is `error=` with the encoded provider error, and it decodes back to the provider's text. |
| OAuthCallback.IssuedStateAccepted | src/app/api/auth/battlenet/callback/route.ts:34-42 | A state issued at initiation passes exactly when the query carries that same state. |
| OAuthCallback.SavedKeepsOneRowPerAccount | src/app/api/auth/battlenet/callback/route.ts:51-104 | Saving never creates a second row for an account. An existing account keeps its row id; a new one gets exactly one row with a fresh id. Other rows are untouched. |
| OAuthCallback.SavedRow | src/app/api/auth/battlenet/callback/route.ts:59-93 | The saved row holds the new battletag and access token, with an expiry `expires_in` seconds from now. On update it takes the issued refresh token or keeps the old one, and stamps the login time. On insert it stores the issued refresh token or ''. |
| OAuthCallback.RefreshTokenKept | src/app/api/auth/battlenet/callback/route.ts:66 | Logging in again never loses a stored refresh token. |
| OAuthCallback.AccountTable.constructor | src/app/api/auth/battlenet/callback/route.ts:51-57 | The account table starts well keyed by `battlenet_id`. |
| OAuthCallback.AccountTable.SaveAccount | src/app/api/auth/battlenet/callback/route.ts:51-104 | The existing row is updated only when the lookup succeeded and found the account. A lookup error leads to the insert, which the unique `battlenet_id` key refuses for a stored account. A refused or failed write leaves the table as it was and yields no user. Otherwise the table becomes the saved table, and the user id is that row's id. |
| OAuthCallback.AccountTable.Callback | src/app/api/auth/battlenet/callback/route.ts:12-152 | No outside call happens unless the state was verified. The first call is the exchange of the query's code, and no other exchange follows. Each rejection redirects with its error and leaves the table unchanged. A non-2xx or rejected token or user-info reply gives `authentication_failed`, and a refused write gives `database_error`, both with the table unchanged. The session carries the user-info and token replies' bodies. On success the table is saved. The session carries the row id, the Battle.net id, the battletag and type 'member'. The `member-token` cookie is strict and lasts 7 days, and the state cookie is deleted. |
| CharacterSync.Authenticate | src/app/api/member/characters/route.ts:14-27 | A missing cookie, or a payload that is not a member session, gives 401. A token that fails verification gives the handler's 500. Access is granted only to a verified member session, as that session's user. |
| CharacterSync.List | src/app/api/member/characters/route.ts:12-56 | Authentication failures and query errors give their responses; otherwise the caller's characters are listed. |
| CharacterSync.ListOwnRowsOrdered | src/app/api/member/characters/route.ts:30-35 | GET returns exactly the caller's rows, each once. Main characters come first, then by level, highest first. |
| CharacterSync.Refreshed | src/app/api/member/characters/route.ts:93-106 | A refresh writes the new access token and expiry. The refresh token and the identity are kept, and a positive lifetime leaves the token unexpired. |
| CharacterSync.TokenFor | src/app/api/member/characters/route.ts:88-114 | An unexpired token is used as stored. An expired one is replaced by the refresh reply's access token when that reply is 2xx, and otherwise there is no token. |
| CharacterSync.UnexpiredTokenUsed | src/app/api/member/characters/route.ts:88-91 | A token expiring now or later is used as stored, without asking Battle.net. |
| CharacterSync.FindAsset | src/app/api/member/characters/route.ts:138-139 | `find` returns the first asset with the key, or none when no asset has it. |
| CharacterSync.AssetUrl | src/app/api/member/characters/route.ts:138-139 | The URL is the non-empty value of the first asset with the key. It is null when there is no such asset or its value is empty. |
| CharacterSync.AvatarIsFirstAvatarAsset | src/app/api/member/characters/route.ts:138 | The avatar is the first 'avatar' asset's value, even when a later one has a value. |
| CharacterSync.Upserted | src/app/api/member/characters/route.ts:142-165 | The row is keyed by the caller and the character. Name, realm, realm slug, faction, race, class, gender, level, last login, both item levels and achievement points are the profile's, and `updated_at` is now. It keeps an existing `is_main` (false for a new row). `active_spec` is set exactly when the profile names a non-empty one, and is then that spec. The avatar and thumbnail come from the assets. |
| CharacterSync.FailedProfileSkips | src/app/api/member/characters/route.ts:122-175 | A non-2xx or rejected profile reply makes the profile call throw, so the character is skipped: nothing is written or reported. |
| CharacterSync.FailedMediaStoresNoImages | src/app/api/member/characters/route.ts:131-139 | A non-2xx media reply makes the media call return null, so the character is still written, with a null avatar and thumbnail. A rejected media reply throws and skips the character. |
| CharacterSync.StepSaved | src/app/api/member/characters/route.ts:122-176 | One iteration keeps one row exactly when the character was written, and that row is the caller's. |
| CharacterSync.SyncCount | src/app/api/member/characters/route.ts:169-182 | `count` is the number of characters written, so it never exceeds the number of upstream characters. |
| CharacterSync.SyncSavedOwn | src/app/api/member/characters/route.ts:169-182 | Every row the sync reports belongs to the caller. |
| CharacterSync.SyncKeys | src/app/api/member/characters/route.ts:142-165 | The sync adds exactly the keys of the written characters, keeps other users' rows, and keeps the table keyed. |
| CharacterSync.SyncRepeatAddsNoRows | src/app/api/member/characters/route.ts:142-165 | Syncing the same characters again adds no row. |
| CharacterSync.SyncKeepsMain | src/app/api/member/characters/route.ts:144-162 | A main character stays main through a sync. |
| CharacterSync.CharacterTable.constructor | src/app/api/member/characters/route.ts:142-165 | The character table starts keyed by `(user_id, character_id)`. |
| CharacterSync.CharacterTable.Sync | src/app/api/member/characters/route.ts:122-176 | The loop leaves the table and the returned rows equal to the fold of the single steps over the characters, in order. |
| CharacterSync.CharacterTable.Post | src/app/api/member/characters/route.ts:59-191 | 401 on a bad session, and 404 for an unknown user or a failed lookup, with nothing changed. An expired token is refreshed; a 2xx refresh reply updates the account row when that write applies and leaves the table as it was when it fails. A non-2xx or rejected refresh reply gives 401 and syncs nothing. A failed character list gives 500. Otherwise the sync runs with the chosen token and reports the count and the rows. |
| BattleNetClient.EnvOr | src/lib/battlenet.ts:6-9 | An unset or empty variable takes the fallback. |
| BattleNetClient.NewClient | src/lib/battlenet.ts:6-9 | The region defaults to 'eu' and the redirect URI to the local callback, so neither is ever empty. |
| BattleNetClient.RegionHosts | src/lib/battlenet.ts:12-27 | us, eu, kr and tw share the global OAuth host and cn has its own. A region has an OAuth host iff it has an API host, and the API hosts are pairwise distinct. |
| BattleNetClient.RenderedBaseHasNoQuery | src/lib/battlenet.ts:157-167 | No OAuth base contains '?', so the authorization URL's query starts at its first '?'. |
| BattleNetClient.Get | src/lib/battlenet.ts:157-167 | Looking up a parameter name finds a pair with that name, or reports that none has it. |
| BattleNetClient.QueryRoundTrip | src/lib/battlenet.ts:157-167 | The query of `prefix?params` parses back to the parameters when the prefix has no '?'. |
| BattleNetClient.AuthorizationUrlCarriesParams | src/lib/battlenet.ts:157-167 | The authorization URL's query parses back to exactly the authorization parameters, in order. |
| BattleNetClient.AuthorizationParamsValues | src/lib/battlenet.ts:159-165 | The parameters are client_id, redirect_uri, response_type=code, scope=wow.profile and the given state (section 4.1.1 of RFC 6749). |
| BattleNetClient.CodeExchangeMatchesAuthorization | src/lib/battlenet.ts:172-186 | The code exchange posts grant_type=authorization_code with the code. Its redirect_uri equals the authorization request's (section 4.1.3 of RFC 6749). The body serialises and parses back unchanged. |
| BattleNetClient.RefreshCarriesToken | src/lib/battlenet.ts:200-213 | The refresh request posts grant_type=refresh_token with exactly the given token (section 6 of RFC 6749). |
| BattleNetClient.CredentialsSplit | src/lib/battlenet.ts:174 | The Basic credentials split at the first ':' into the client id and the secret, when the id has no ':' (section 2 of RFC 7617). |
| BattleNetClient.BracketSlugsDistinct | src/lib/battlenet.ts:415-419 | Brackets map one-to-one to slugs, each "pvp-bracket-" followed by the bracket's three-character name. |
| BattleNetClient.CharacterList | src/lib/battlenet.ts:247-266 | The character list is returned exactly for a 2xx reply, and it is every account's characters, in order. A non-2xx or rejected reply throws; this call never returns null. |
| BattleNetClient.CharacterUrlUsesLowerCaseName | src/lib/battlenet.ts:277-280 | Character URLs do not depend on the case of the name, and the name segment has no upper-case letter. |
| BattleNetClient.CharacterUrlSegments | src/lib/battlenet.ts:305-308 | The realm slug and the lower-cased name appear verbatim right after the API host. |
| BattleNetClient.FlattenAppend | src/lib/battlenet.ts:265 | Flattening distributes over the account list, so the characters keep the order of their accounts. |
| BattleNetClient.FlattenMembership | src/lib/battlenet.ts:265 | A character is in the flattened list iff one of the accounts lists it. |
| BattleNetClient.FlattenLength | src/lib/battlenet.ts:265 | The flattened list is as long as all the accounts' lists together. |
| BattleNetClient.FlattenMissing | src/lib/battlenet.ts:265 | A missing `wow_accounts` gives [], and an account without `characters` contributes nothing. |
| UrlEncoding.DecodeUtf8 | src/lib/battlenet.ts:159-167 | UTF-8 decoding inverts UTF-8 encoding for every character (RFC 3629, section 3). |
| UrlEncoding.EncodeHasNoSeparators | src/lib/battlenet.ts:159-167 | An encoded name or value contains neither '&' nor '='. |
| UrlEncoding.DecodeEncode | src/app/api/auth/battlenet/callback/route.ts:20-24 | Percent-decoding inverts `encodeURIComponent`, and form decoding inverts form encoding. |
| UrlEncoding.ParseSerialize | src/lib/battlenet.ts:159-167 | A serialised `URLSearchParams` parses back to the same pairs, in order. |
| BossRoute.Prepare | src/app/api/admin/raids/boss/route.ts:19-29 | 'killed' forces the progress to 100 and sets the kill date to the supplied one or, if falsy, today. Any other status uses the supplied progress (0 when falsy) and clears the kill date. |
| BossRoute.KillDateIffKilled | src/app/api/admin/raids/boss/route.ts:25-29 | A stored kill date is truthy iff the boss is killed. |
| BossRoute.Put | src/app/api/admin/raids/boss/route.ts:6-69 | A missing id or status gives 400 and no update. A query error gives 500. Otherwise the response carries the rows the update returned. The log entry is written iff the update returned a row, and it names that boss and the status. |
| BossRoute.KilledIsComplete | src/app/api/admin/raids/boss/route.ts:21-26 | Killing a boss sets it to 100 % whatever progress was sent. |
| RaidsRoute.SortedBosses | src/app/api/raids/route.ts:26-29 | A raid's bosses come back in ascending position, as a permutation of the fetched ones. Absent bosses give [], and the other fields are as fetched. |
| RaidsRoute.OrderedBossesUnchanged | src/app/api/raids/route.ts:28 | Bosses already in position order come back as they are, so ties keep their fetched order. |
| RaidsRoute.Get | src/app/api/raids/route.ts:6-40 | A query error, and only a query error, gives a 500. Null data without an error gives a body with no `raids` field. Otherwise the response has one raid per fetched raid. |
| RaidsRoute.RaidsNewestFirst | src/app/api/raids/route.ts:9-29 | Raids come newest first, as a permutation of the stored ones. The i-th raid is the i-th fetched raid with its bosses sorted. |
| Ordering.SortBySorted | src/app/api/raids/route.ts:28 | The stable sort returns its input in key order. |
| Ordering.SortByPermutes | src/app/api/raids/route.ts:28 | The stable sort is a permutation of its input. |
| Ordering.SortByOfSorted | src/app/api/raids/route.ts:28 | An input already in key order comes back unchanged. |
| Ordering.SortByIdempotent | src/app/api/raids/route.ts:28 | Sorting twice is sorting once. |
| SettingsRoute.ValueOrEmpty | src/app/api/settings/route.ts:23 | A null value maps to the empty string. |
| SettingsRoute.SettingsKeys | src/app/api/settings/route.ts:21-24 | The dictionary's keys are exactly the rows' keys, so no rows give an empty map. |
| SettingsRoute.SettingsLastWins | src/app/api/settings/route.ts:22-23 | Under a key sits the value of the last row with that key. |
| SettingsRoute.Get | src/app/api/settings/route.ts:6-35 | A query error gives 500. Absent data gives an empty map, and rows give the folded dictionary. |
| AdminSettingsRoute.FirstFailure | src/app/api/admin/settings/route.ts:11-25 | It finds the first entry whose write fails, or reports that every write succeeds. |
| AdminSettingsRoute.AppliedKeys | src/app/api/admin/settings/route.ts:11-18 | Upserting adds the entries' keys and keeps every other row. |
| AdminSettingsRoute.AppliedLastWins | src/app/api/admin/settings/route.ts:11-18 | Under a key sits the value of its last entry, stamped with the request time. |
| AdminSettingsRoute.SettingsTable.constructor | src/app/api/admin/settings/route.ts:11-18 | The table starts with the given rows. |
| AdminSettingsRoute.SettingsTable.Put | src/app/api/admin/settings/route.ts:6-50 | One upsert is issued per entry, in order. The first failure returns 500 naming its key: the earlier entries stay written and no later one is attempted. Only when every write succeeds is the log written and 200 returned, even for an empty body. |
| ApplicationsRoute.AvailabilityText | src/app/api/applications/route.ts:31-33 | An array is stored joined with ','; anything else passes through. |
| ApplicationsRoute.AvailabilityRoundTrip | src/app/api/applications/route.ts:31-33 | Splitting the stored text on ',' recovers the chosen days when none contains a comma. |
| ApplicationsRoute.NoAvailabilityStoredEmpty | src/app/api/applications/route.ts:31-33 | No chosen day is stored as "", which splits to one empty piece. |
| ApplicationsRoute.ToRecord | src/app/api/applications/route.ts:36-49 | The row has status 'pending' and the parsed item level. `raiderio_score` is null for a falsy rio and its parse otherwise. The availability text is stored. Name, class, specialization, experience, motivation and Discord name are copied from the body. |
| ApplicationsRoute.NumericItemLevel | src/app/api/applications/route.ts:44 | A numeric item level is stored as that number. |
| ApplicationsRoute.Post | src/app/api/applications/route.ts:6-81 | A non-JSON body gives 500. A falsy required field gives 400 and no insert. Otherwise exactly the record is inserted. 201 and the log entry follow iff the insert succeeds; a failed insert gives 500 'Failed to submit application'. |
| ApplicationsRoute.OptionalFields | src/app/api/applications/route.ts:23 | Rio and availability are optional. |
| ApplicationsRoute.List | src/app/api/applications/route.ts:83-107 | A query error, and only a query error, gives the failure. |
| ApplicationsRoute.ListNewestFirst | src/app/api/applications/route.ts:85-88 | GET returns every stored application once, newest first. |
| Text.SplitJoin | src/app/admin/applications/page.tsx:151 | Splitting a join with the same one-character separator recovers the pieces when none contains it. |
| Text.JoinSplit | src/app/admin/applications/page.tsx:151 | Joining the pieces of a split gives back the string. |
| EventsRoute.WithDefaults | src/app/api/admin/events/route.ts:33-166 | A falsy description or attendee cap is stored as null, and a falsy status as 'scheduled'. The other fields are kept. |
| EventsRoute.DefaultsNeverFalsy | src/app/api/admin/events/route.ts:33-166 | A stored status is never falsy, and the nullable columns hold no falsy value other than null. |
| EventsRoute.Post | src/app/api/admin/events/route.ts:33-98 | A missing title, type, date or time gives 400 and no write. Otherwise the event is inserted with 0 attendees. 201 and the log entry follow iff the write succeeds; a failed write gives 500 'Failed to create event'. |
| EventsRoute.Put | src/app/api/admin/events/route.ts:100-166 | A missing id gives 400. The update never touches the attendee count. 200 and the log entry follow iff the write succeeds; a failed write gives 500 'Failed to update event'. |
| EventsRoute.TitleOrUnknown | src/app/api/admin/events/route.ts:181-185 | The logged title is the found one, or 'Unknown'. |
| EventsRoute.Remove | src/app/api/admin/events/route.ts:168-221 | A missing id gives 400. Otherwise exactly that id is deleted. 200 and a log entry naming the title follow iff the delete succeeds; a failed delete gives 500 'Failed to delete event'. |
| EventsRoute.DeleteUnknown | src/app/api/admin/events/route.ts:181-200 | Deleting an event whose title cannot be found still succeeds and logs 'Unknown'. |
| EventsRoute.List | src/app/api/admin/events/route.ts:6-31 | A query error, and only a query error, gives the failure. |
| EventsRoute.ListChronological | src/app/api/admin/events/route.ts:8-13 | GET returns every event once, by date and then by time, earliest first. |
| Middleware.Middleware | src/middleware.ts:3-19 | A path starting with `/admin` is redirected to `/admin/login` iff the cookie is missing, empty or shorter than 10 characters. Every other request passes. |
| Middleware.Gate | src/middleware.ts:22-25 | The middleware runs only on `/admin` and the paths below it. |
| Middleware.MatchedGateRedirects | src/middleware.ts:5-16 | On a matched path the gate redirects exactly the requests without an admissible token. |
| Middleware.LongTokenPasses | src/middleware.ts:14-16 | Any cookie of ten or more characters passes, whatever it holds. |
| Middleware.LoginPageRedirectsToItself | src/middleware.ts:5-10 | Without a token, the login page redirects to itself, and so does the page that redirect leads to. |
| Middleware.GateExemptingLogin | src/middleware.ts:5-10 | The corrected gate lets the login page through and gates every other path as before. |
| Middleware.ExemptLoginReachable | src/middleware.ts:5-25 | With the exemption, every redirect leads to a page that is shown. Redirects happen iff the path is matched, is not the login page, and the token is not admissible. |
| AdminApplicationsPage.FiltersCompose | src/app/admin/applications/page.tsx:60-73 | The search filter followed by the status filter keeps exactly the shown applications. |
| AdminApplicationsPage.FilteredShowsMatches | src/app/admin/applications/page.tsx:60-79 | The displayed list holds each shown application as often as it was loaded and nothing else, newest first. |
| AdminApplicationsPage.ApplicationsPage.constructor | src/app/admin/applications/page.tsx:29-30 | The page starts with the loaded list and nothing displayed. |
| AdminApplicationsPage.ApplicationsPage.FilterApplications | src/app/admin/applications/page.tsx:60-79 | The displayed list becomes the filtered, sorted list. With no filter on, the in-place sort also reorders the loaded list, which then equals the displayed one; otherwise the loaded list is untouched. |
| AdminApplicationsPage.Label | src/app/admin/applications/page.tsx:151-157 | The trimmed names 'wednesday', 'sunday' and 'optional' become Mi, So and Opt. Any other piece is kept as it was, untrimmed. |
| AdminApplicationsPage.FormatOnePiecePerDay | src/app/admin/applications/page.tsx:150-159 | The formatted text has one comma-separated piece per stored piece: the first piece's label, then a space and each later piece's label. |
| AdminApplicationsPage.FormatStoredDays | src/app/admin/applications/page.tsx:150-159 | The stored days, joined with ',', are shown as their labels joined with ", ". |
| AdminMembersPage.FilterMembers | src/app/admin/members/page.tsx:71-90 | The up-to-three successive filters give the members passing every enabled filter, in roster order. |
| AdminMembersPage.ListedMembers | src/app/admin/members/page.tsx:71-90 | A member is listed iff it is on the roster and passes every enabled filter; nobody is listed more often than they appear on the roster. |
| AdminMembersPage.NumberField | src/app/admin/members/page.tsx:107-108 | An empty number field is sent as null, any other as its integer parse. |
| AdminMembersPage.Submit | src/app/admin/members/page.tsx:92-111 | Editing sends PUT with the member's id, and creating sends POST without one, both to /api/members. Both send every form field and the two parsed numbers. |
| AdminMembersPage.NumberText | src/app/admin/members/page.tsx:132-133 | A missing number shows as the empty text, and a present one as a non-empty text. |
| AdminMembersPage.EditUnchangedRoundTrip | src/app/admin/members/page.tsx:92-137 | Saving an unchanged edit form sends the member back as it was, under its own id, including its numbers (0 included). |
| Js.ParseIntShowInt | src/app/admin/members/page.tsx:107-108 | `parseInt` reads back every integer that `toString` renders. |
| WeeklyOverviewPage.LeaderboardOrder | src/app/member/weekly-overview/page.tsx:105-117 | The leaderboard lists every activity once. 'mythic' orders by runs, then key level; 'raid' by bosses; 'ilvl' by equipped item level, a missing one counting as 0. All are highest first. |
| WeeklyOverviewPage.OrderedBoardUnchanged | src/app/member/weekly-overview/page.tsx:105-117 | A board already in the chosen order is shown as it is, so ties keep their loaded order. |
| WeeklyOverviewPage.RoundedMean | src/app/member/weekly-overview/page.tsx:121-123 | The mean is rounded half up (`Math.round`). |
| WeeklyOverviewPage.StatsOf | src/app/member/weekly-overview/page.tsx:119-126 | `totalMembers` counts the activities. The run and boss totals are the sums over the activities, and the vault-ready figure counts the activities at vault tier 1 or above, so it never exceeds `totalMembers`. The average key level is the mean key level rounded half up. An empty week gives zero totals and a zero average. |
| WeeklyOverviewPage.AverageWithinKeyLevels | src/app/member/weekly-overview/page.tsx:121-123 | The average key level lies between the lowest and the highest key level. |
| WeeklyOverviewPage.StatsAddActivity | src/app/member/weekly-overview/page.tsx:119-126 | A further activity adds its runs, bosses and vault readiness to the figures. |
| WeeklyOverviewPage.VaultTierColor | src/app/member/weekly-overview/page.tsx:98-103 | The tiers ≥3, 2, 1 and <1 are purple, blue, green and gray. |
| WeeklyOverviewPage.VaultColorsDistinct | src/app/member/weekly-overview/page.tsx:98-103 | Two tiers get the same colour iff they fall in the same band. |
| AdminRaidsPage.FilteredBosses | src/app/admin/raids/page.tsx:132 | No selected raid gives []. Otherwise the list is the raid's bosses of the difficulty, in order. |
| AdminRaidsPage.SummaryOf | src/app/admin/raids/page.tsx:253-255 | The killed figure never exceeds the total. |
| AdminRaidsPage.SummaryMatchesList | src/app/admin/raids/page.tsx:132-255 | The summary counts the bosses the list shows for that difficulty: the total is their number, and the killed figure is those with status 'killed'. |
| AdminRaidsPage.ProgressColor | src/app/admin/raids/page.tsx:125-130 | ≥100 is green, 50..99 yellow, 1..49 red, and 0 or less gray. |
| AdminRaidsPage.SummaryColorIsProgressColor | src/app/admin/raids/page.tsx:256-268 | For a whole-number percentage, the summary's colour is `getProgressColor` of it. |
| AdminRaidsPage.SummaryColorExtremes | src/app/admin/raids/page.tsx:253-268 | A difficulty fully killed is green. One with none killed is gray, and one with some killed is never gray. |
| AdminRaidsPage.ProgressValue | src/app/admin/raids/page.tsx:80 | The progress is the integer parse of the text, or null for NaN. |
| AdminRaidsPage.BossUpdate | src/app/admin/raids/page.tsx:67-98 | A request is sent iff a boss is being edited. It sends the boss id, the status and the parsed progress. A kill date is sent only for 'killed': the form's date, or today's when the form has none. |
| AdminRaidsPage.RouteKeepsPageKillDate | src/app/admin/raids/page.tsx:67-98 | The boss route stores the kill date the page sends, at 100 % for 'killed'. For any other status neither side keeps a date. |
| AdminRaidsPage.EditUnchangedKeepsProgress | src/app/admin/raids/page.tsx:100-108 | Saving an unchanged edit form sends the boss's own progress back. |
| AdminDashboard.CountWithStatus | src/app/admin/page.tsx:61-62 | A missing list counts 0. Otherwise the figure is the number of rows with the status, never more than the list holds. |
| AdminDashboard.LengthOrZero | src/app/admin/page.tsx:63 | A missing list counts 0, and otherwise its length. |
| AdminDashboard.Load | src/app/admin/page.tsx:43-95 | A failed load leaves the initial figures. Otherwise the upcoming-event figure is the number of listed events, or 0 when none were listed. |
| AdminDashboard.CountsByStatus | src/app/admin/page.tsx:61-62 | The member and application figures count exactly the 'active' and 'pending' rows. |
| AdminDashboard.ProgressReadsBack | src/app/admin/page.tsx:65-71 | The progress text splits into two numerals that parse back to the first raid's killed and total bosses, with killed ≤ total. It is "0/0" without a raid. |
| MembersSection.Filters | src/components/sections/MembersSection.tsx:72-78 | There are five buttons. |
| MembersSection.BadgesMatchCards | src/components/sections/MembersSection.tsx:66-78 | Every button's badge is the number of cards its key shows, and every shown card passes the key's test. |
| MembersSection.OfficerKeyUsesFlag | src/components/sections/MembersSection.tsx:66-70 | The 'officer' key goes by the officer flag, not by the role. |
| MembersSection.ClassColor | src/components/sections/MembersSection.tsx:119 | A known class gets its colour and any other gets gray-600. |
| MembersSection.FallbackOnlyForUnknown | src/components/sections/MembersSection.tsx:119 | A card is gray-600 iff its class is unknown. |
| MembersSection.RoleIcon | src/components/sections/MembersSection.tsx:118 | Tank, heal and officer get their icons; any other role gets the sword. |
| Common.FilterAppend | src/components/sections/MembersSection.tsx:66-70 | A filter keeps the order of its survivors: it distributes over concatenation. |
| GallerySection.Loaded | src/components/sections/GallerySection.tsx:94-109 | A non-empty loaded gallery is shown. Otherwise, whether it is empty, missing, not OK or threw, the placeholders are shown. |
| GallerySection.NeverEmpty | src/components/sections/GallerySection.tsx:94-109 | The section never shows an empty gallery. |
| GallerySection.Filters | src/components/sections/GallerySection.tsx:116-121 | There are four buttons. |
| GallerySection.CountsMatchItems | src/components/sections/GallerySection.tsx:111-121 | Every button's count is the number of items its key shows. |
| ApplicationSection.SetText | src/components/sections/ApplicationSection.tsx:51-54 | Typing changes exactly the named field. |
| ApplicationSection.Toggle | src/components/sections/ApplicationSection.tsx:56-64 | Checking appends the day. Unchecking removes every occurrence of it and changes nothing else. |
| ApplicationSection.UncheckKeepsOthers | src/components/sections/ApplicationSection.tsx:62 | Unchecking keeps every other day, as often as it was there. |
| ApplicationSection.CheckUncheckRestores | src/components/sections/ApplicationSection.tsx:56-64 | Checking an unchecked day and unchecking it again gives the form back. |
| ApplicationSection.AfterSubmit | src/components/sections/ApplicationSection.tsx:66-99 | An OK response resets the form and shows the thank-you view, and any other response keeps the form. |
| ApplicationSection.Body | src/components/sections/ApplicationSection.tsx:76 | The posted availability is the array of checked days. |
| ApplicationSection.RouteAcceptsFilledForm | src/components/sections/ApplicationSection.tsx:66-99 | The route accepts the form iff every text field but rio is filled in, so an empty form is refused. It stores the checked days joined with ','. |

## Left out

- Time zones and the ISO rendering of dates are left out. An instant is a millisecond count, a calendar day is a day number in the server's zone, and the `YYYY-MM-DD` texts are opaque strings. Invalid (NaN) dates are not modelled.
- Floating point is left out. `Math.round(total / n)` is rounding half up on integers. The raids page's percentage is compared exactly (`AdminRaidsPage.SummaryColor`) rather than through a floating-point quotient.
- `toLowerCase` changes only the ASCII letters; Unicode case mapping is not modelled.
- Base64 is not modelled: the Basic credentials are kept as the `id:secret` text before the encoding.
- Signing and verifying JWTs, `randomBytes`, `fetch`, `Promise.all` and the database client are parameters: their results are inputs. The 7-day expiry inside the JWT is not modelled, only the cookie's max-age.
- Rendering (JSX, modals, alerts, loading flags) is left out.
- `classColors[...]` and `roleIcons[...]` lookups on inherited object keys such as "constructor" are not modelled; an unknown key counts as missing.
- The order of rows that tie under a database `.order(...)` is modelled as the fetched order, by a stable sort. The database does not promise that.
- Event dates and times are day numbers and minutes after midnight rather than date and time strings.
- The gallery placeholders omit their descriptions and image URLs. The gallery lemmas cover any loaded list, but no lemma computes the button counts of the eight placeholders themselves.
- Four routes that the member dashboard calls (weekly-activity refresh, per-character refresh, set-main and the vault-tier thresholds) are not part of this model.
- In the raids API the `bosses.sort(...)` sorts the fetched array in place. Here it is a function returning the sorted copy; nothing else reads the fetched array afterwards.
- A character sync token refresh keeps the stored refresh token, as `src/app/api/member/characters/route.ts:97-104` does. The model follows the code, so a rotated token returned by Battle.net is dropped.
- Battle.net replies are a status with a text and a decoded body, or a rejection. A 2xx reply whose body fails to parse as JSON is modelled as a rejection, since `response.json()` then throws.
- AdminSettingsRoute.SettingsTable.Put: one clock reading `now` stamps every upsert, where the route reads `new Date()` again on each pass (`src/app/api/admin/settings/route.ts:17`).
- The admin settings upsert names no conflict column. The model takes `setting_key` as the key the upsert matches on.

## Findings

| source | as written | input that shows it | evidently intended | confidence | as-written member | corrected member |
|---|---|---|---|---|---|---|
| src/middleware.ts:5-10, 22-25 | the gate covers `/admin/login` itself, so a visitor without an `admin-token` cookie is redirected from the login page to the login page | GET `/admin/login` with no `admin-token` cookie | the login page is exempt, so every redirect leads to a page that is shown | not executed | Middleware.LoginPageRedirectsToItself | Middleware.ExemptLoginReachable |
