/** `/api/member/characters`: GET lists the member's stored characters;
    POST refreshes the Battle.net access token when it has expired, fetches
    the member's characters and upserts each of them into
    `user_characters`, keyed by `(user_id, character_id)`.

    `jwt.verify`, the Battle.net calls and the database's answers are
    parameters; the clock is `now`, in milliseconds. */
module CharacterSync {

  import opened Common
  import Js
  import Ordering
  import BattleNetClient
  import OAuthCallback

  // ---------------------------------------------------------------------
  // Authentication

  /** What `jwt.verify` made of the `member-token` cookie: `Invalid` when it
      threw (bad signature, expired), otherwise the payload. */
  datatype Decoded = Invalid | Payload(userId: string, kind: string)

  datatype Auth = Authorized(userId: string) | Denied(status: int, error: string)

  /** Lines 14-27 (GET) and 61-74 (POST): a missing cookie or a payload
      that is not a member session is 401; a token that does not verify
      throws, which the handler's catch turns into a 500 with its own
      message. */
  function Authenticate(cookie: Option<string>, verify: string -> Decoded, failure: string): (r: Auth)
    ensures !Js.Given(cookie) ==> r == Denied(401, "Unauthorized")
    ensures r.Authorized? <==> Js.Given(cookie) && verify(cookie.value).Payload? && verify(cookie.value).kind == "member"
    ensures r.Authorized? ==> r.userId == verify(cookie.value).userId
    ensures Js.Given(cookie) && verify(cookie.value).Invalid? ==> r == Denied(500, failure)
    ensures r.Denied? ==> r.status == 401 || r == Denied(500, failure)
  {
    if !Js.Given(cookie) then Denied(401, "Unauthorized")
    else match verify(cookie.value)
      case Invalid => Denied(500, failure)
      case Payload(userId, kind) => if kind != "member" then Denied(401, "Unauthorized") else Authorized(userId)
  }

  // ---------------------------------------------------------------------
  // Rows

  /** A row of `user_characters`. */
  datatype CharacterRow = CharacterRow(
    userId: string,
    characterId: int,
    name: string,
    realm: string,
    realmSlug: string,
    faction: string,
    race: string,
    characterClass: string,
    activeSpec: Option<string>,
    gender: string,
    level: int,
    averageItemLevel: int,
    equippedItemLevel: int,
    achievementPoints: int,
    thumbnailUrl: Option<string>,
    avatarUrl: Option<string>,
    lastLoginTimestamp: Option<int>,
    updatedAt: int,
    isMain: bool)

  type RowKey = (string, int)

  /** Every row sits under its own `(user_id, character_id)`. */
  predicate Keyed(rows: map<RowKey, CharacterRow>) {
    forall k :: k in rows ==> rows[k].userId == k.0 && rows[k].characterId == k.1
  }

  // ---------------------------------------------------------------------
  // GET

  /** `.order('is_main', desc).order('level', desc)`: main characters
      first, then by level, highest first. */
  function MainThenLevel(r: CharacterRow): Ordering.Key
  {
    Ordering.Key(if r.isMain then 0 else 1, -r.level)
  }

  datatype ListResponse = Characters(characters: seq<CharacterRow>) | ListFailure(status: int, error: string)

  /** GET, over the stored rows of `user_characters`. */
  function List(cookie: Option<string>, verify: string -> Decoded, stored: seq<CharacterRow>, queryFailed: bool): (r: ListResponse)
    ensures Authenticate(cookie, verify, "Internal server error").Denied? ==>
      r == ListFailure(Authenticate(cookie, verify, "Internal server error").status, Authenticate(cookie, verify, "Internal server error").error)
    ensures Authenticate(cookie, verify, "Internal server error").Authorized? && queryFailed ==> r == ListFailure(500, "Failed to fetch characters")
  {
    match Authenticate(cookie, verify, "Internal server error")
    case Denied(status, error) => ListFailure(status, error)
    case Authorized(userId) =>
      if queryFailed then ListFailure(500, "Failed to fetch characters")
      else Characters(Ordering.SortBy(Filter(stored, (row: CharacterRow) => row.userId == userId), MainThenLevel))
  }

  /** GET returns exactly the caller's rows, each once, main characters
      first and then by descending level. */
  lemma ListOwnRowsOrdered(cookie: Option<string>, verify: string -> Decoded, stored: seq<CharacterRow>)
    requires Authenticate(cookie, verify, "Internal server error").Authorized?
    ensures var userId := Authenticate(cookie, verify, "Internal server error").userId;
      var r := List(cookie, verify, stored, false);
      && r.Characters?
      && multiset(r.characters) == multiset(Filter(stored, (row: CharacterRow) => row.userId == userId))
      && (forall i :: 0 <= i < |r.characters| ==> r.characters[i].userId == userId)
      && (forall i, j :: 0 <= i < j < |r.characters| ==>
            (r.characters[i].isMain && !r.characters[j].isMain)
            || (r.characters[i].isMain == r.characters[j].isMain && r.characters[i].level >= r.characters[j].level))
  {
    var userId := Authenticate(cookie, verify, "Internal server error").userId;
    var mine := Filter(stored, (row: CharacterRow) => row.userId == userId);
    Ordering.SortByPermutes(mine, MainThenLevel);
    Ordering.SortBySorted(mine, MainThenLevel);
    var sorted := Ordering.SortBy(mine, MainThenLevel);
    forall i | 0 <= i < |sorted| ensures sorted[i].userId == userId {
      assert sorted[i] in multiset(mine);
    }
  }

  // ---------------------------------------------------------------------
  // Token refresh (lines 88-114)

  /** Only a token whose expiry lies strictly before now is refreshed. */
  predicate NeedsRefresh(account: OAuthCallback.AccountRow, now: int) {
    account.tokenExpiresAt < now
  }

  /** The account after a refresh: new access token and expiry, the
      refresh token as it was. */
  function Refreshed(account: OAuthCallback.AccountRow, grant: OAuthCallback.TokenResponse, now: int): (r: OAuthCallback.AccountRow)
    ensures r.id == account.id && r.battlenetId == account.battlenetId && r.battletag == account.battletag
    ensures r.refreshToken == account.refreshToken
    ensures r.accessToken == grant.accessToken
    ensures grant.expiresIn > 0 ==> !NeedsRefresh(r, now)
  {
    account.(accessToken := grant.accessToken,
             tokenExpiresAt := now + grant.expiresIn * 1000,
             updatedAt := Some(now))
  }

  /** `refreshAccessToken`: what it made of the token endpoint's reply. */
  function RefreshOutcome(account: OAuthCallback.AccountRow, refreshWith: string -> BattleNetClient.Reply<OAuthCallback.TokenResponse>): BattleNetClient.Outcome<OAuthCallback.TokenResponse>
  {
    BattleNetClient.Receive(BattleNetClient.RefreshToken, refreshWith(account.refreshToken))
  }

  /** The access token the sync uses (lines 88-114): the stored one unless
      it had expired, otherwise the one a 2xx refresh reply carries; None
      when the refresh threw. `refreshWith` answers the token endpoint's
      request for a refresh token. */
  function TokenFor(account: OAuthCallback.AccountRow, refreshWith: string -> BattleNetClient.Reply<OAuthCallback.TokenResponse>, now: int): (r: Option<string>)
    ensures !NeedsRefresh(account, now) ==> r == Some(account.accessToken)
    ensures NeedsRefresh(account, now) ==> (r.Some? <==> BattleNetClient.Ok(refreshWith(account.refreshToken)))
    ensures NeedsRefresh(account, now) && r.Some? ==> r.value == refreshWith(account.refreshToken).body.accessToken
  {
    if !NeedsRefresh(account, now) then Some(account.accessToken)
    else match RefreshOutcome(account, refreshWith)
      case Returned(grant) => Some(grant.accessToken)
      case _ => None
  }

  /** An unexpired token, including one expiring exactly now, is used as
      stored, whatever the token endpoint would answer. */
  lemma UnexpiredTokenUsed(account: OAuthCallback.AccountRow, refreshWith: string -> BattleNetClient.Reply<OAuthCallback.TokenResponse>, now: int)
    requires now <= account.tokenExpiresAt
    ensures TokenFor(account, refreshWith, now) == Some(account.accessToken)
  {
  }

  // ---------------------------------------------------------------------
  // Assets and profile fields

  datatype Asset = Asset(key: string, value: string)
  datatype Media = Media(assets: Option<seq<Asset>>)

  /** The index of the first asset with the key, as `find` returns it. */
  function FindAsset(assets: seq<Asset>, key: string): (r: Option<nat>)
    ensures r.Some? ==> r.value < |assets| && assets[r.value].key == key
                        && forall j :: 0 <= j < r.value ==> assets[j].key != key
    ensures r.None? ==> forall j :: 0 <= j < |assets| ==> assets[j].key != key
  {
    if assets == [] then None
    else if assets[0].key == key then Some(0)
    else match FindAsset(assets[1..], key)
      case None => None
      case Some(i) => Some(i + 1)
  }

  /** `media?.assets?.find(a => a.key === key)?.value || null`. */
  function AssetUrl(media: Option<Media>, key: string): (r: Option<string>)
    ensures r.Some? ==> media.Some? && media.value.assets.Some? && r.value != ""
    ensures r.Some? ==> exists i :: 0 <= i < |media.value.assets.value|
                          && media.value.assets.value[i] == Asset(key, r.value)
                          && forall j :: 0 <= j < i ==> media.value.assets.value[j].key != key
    ensures (media.Some? && media.value.assets.Some? && FindAsset(media.value.assets.value, key).Some?
             && media.value.assets.value[FindAsset(media.value.assets.value, key).value].value != "") ==> r.Some?
  {
    match media
    case None => None
    case Some(m) =>
      match m.assets
      case None => None
      case Some(assets) =>
        match FindAsset(assets, key)
        case None => None
        case Some(i) => Js.OrNull(Some(assets[i].value))
  }

  /** The avatar is the value of the first 'avatar' asset, even when a later
      one has a value; no 'avatar' asset means no avatar. */
  lemma AvatarIsFirstAvatarAsset(before: seq<Asset>, v: string, after: seq<Asset>)
    requires forall j :: 0 <= j < |before| ==> before[j].key != "avatar"
    requires v != ""
    ensures AssetUrl(Some(Media(Some(before + [Asset("avatar", v)] + after))), "avatar") == Some(v)
    ensures AssetUrl(Some(Media(Some(before))), "avatar") == None
  {
    var all := before + [Asset("avatar", v)] + after;
    var i := FindAsset(all, "avatar");
    assert all[|before|].key == "avatar";
    assert i.Some? && i.value == |before|;
  }

  /** The fields of a character profile the sync stores. */
  datatype Profile = Profile(activeSpec: Option<string>, averageItemLevel: int, equippedItemLevel: int, achievementPoints: int)

  // ---------------------------------------------------------------------
  // The sync loop (lines 122-176)

  /** The per-character requests, each asked with the access token, realm
      slug and name: the profile reply and the media reply; and whether the
      upsert came back with a row. */
  datatype Upstream = Upstream(
    profileReply: (string, string, string) -> BattleNetClient.Reply<Profile>,
    mediaReply: (string, string, string) -> BattleNetClient.Reply<Media>,
    writeOk: BattleNetClient.CharacterSummary -> bool)

  /** `getCharacterProfile`, which throws on a failed request. */
  function ProfileOf(token: string, c: BattleNetClient.CharacterSummary, up: Upstream): BattleNetClient.Outcome<Profile>
  {
    BattleNetClient.Receive(BattleNetClient.CharacterProfile, up.profileReply(token, c.realm.slug, c.name))
  }

  /** `getCharacterMedia`, which returns null on a non-2xx response. */
  function MediaOf(token: string, c: BattleNetClient.CharacterSummary, up: Upstream): BattleNetClient.Outcome<Media>
  {
    BattleNetClient.Receive(BattleNetClient.CharacterMedia, up.mediaReply(token, c.realm.slug, c.name))
  }

  /** The media as the loop sees it: null stays null. */
  function MediaValue(o: BattleNetClient.Outcome<Media>): Option<Media>
  {
    if o.Returned? then Some(o.value) else None
  }

  /** The row a character is upserted as (lines 144-162). The upsert does
      not name `is_main`, so an existing row keeps its value and a new row
      gets the column's default, false. */
  function Upserted(rows: map<RowKey, CharacterRow>, userId: string, c: BattleNetClient.CharacterSummary,
                    p: Profile, media: Option<Media>, now: int): (r: CharacterRow)
    ensures r.userId == userId && r.characterId == c.id
    ensures r.name == c.name && r.realm == c.realm.name && r.realmSlug == c.realm.slug
    ensures r.faction == c.faction && r.race == c.playableRace && r.characterClass == c.playableClass
    ensures r.gender == c.gender && r.level == c.level && r.lastLoginTimestamp == c.lastLoginTimestamp
    ensures r.averageItemLevel == p.averageItemLevel && r.equippedItemLevel == p.equippedItemLevel
    ensures r.achievementPoints == p.achievementPoints
    ensures r.updatedAt == now
    ensures r.isMain == ((userId, c.id) in rows && rows[(userId, c.id)].isMain)
    ensures r.activeSpec.Some? <==> p.activeSpec.Some? && p.activeSpec.value != ""
    ensures r.activeSpec.Some? ==> r.activeSpec == p.activeSpec
    ensures r.avatarUrl == AssetUrl(media, "avatar") && r.thumbnailUrl == AssetUrl(media, "inset")
  {
    CharacterRow(userId, c.id, c.name, c.realm.name, c.realm.slug, c.faction, c.playableRace, c.playableClass,
                 Js.OrNull(p.activeSpec), c.gender, c.level,
                 p.averageItemLevel, p.equippedItemLevel, p.achievementPoints,
                 AssetUrl(media, "inset"), AssetUrl(media, "avatar"),
                 c.lastLoginTimestamp, now,
                 (userId, c.id) in rows && rows[(userId, c.id)].isMain)
  }

  /** A character is stored when its profile came back, its media request
      did not throw, and the database returned the upserted row. */
  predicate Written(token: string, c: BattleNetClient.CharacterSummary, up: Upstream) {
    ProfileOf(token, c, up).Returned? && !MediaOf(token, c, up).Thrown? && up.writeOk(c)
  }

  /** Written, as the filter that `count` applies. */
  function WrittenBy(token: string, up: Upstream): BattleNetClient.CharacterSummary -> bool
  {
    c => Written(token, c, up)
  }

  datatype SyncState = SyncState(rows: map<RowKey, CharacterRow>, saved: seq<CharacterRow>)

  /** One iteration: a thrown profile or media request skips the character
      (the catch of lines 172-175), as does a profile that came back null
      (reading its fields throws); a failed upsert writes nothing;
      otherwise the row is written and kept. */
  function Step(s: SyncState, userId: string, token: string, c: BattleNetClient.CharacterSummary, up: Upstream, now: int): SyncState
  {
    match ProfileOf(token, c, up)
    case Returned(p) =>
      var media := MediaOf(token, c, up);
      if media.Thrown? || !up.writeOk(c) then s
      else
        var row := Upserted(s.rows, userId, c, p, MediaValue(media), now);
        SyncState(s.rows[(userId, c.id) := row], s.saved + [row])
    case _ => s
  }

  /** A character whose profile request fails, with a non-2xx status or a
      rejected request, is skipped: the profile call throws and the loop's
      catch moves on to the next character. */
  lemma FailedProfileSkips(s: SyncState, userId: string, token: string, c: BattleNetClient.CharacterSummary, up: Upstream, now: int)
    requires !BattleNetClient.Ok(up.profileReply(token, c.realm.slug, c.name))
    ensures Step(s, userId, token, c, up, now) == s
    ensures !Written(token, c, up)
  {
  }

  /** A non-2xx media reply makes the media call return null, so the
      character is still stored, without avatar and thumbnail; a rejected
      media request throws and the character is skipped. */
  lemma FailedMediaStoresNoImages(s: SyncState, userId: string, token: string, c: BattleNetClient.CharacterSummary, up: Upstream, now: int)
    requires BattleNetClient.Ok(up.profileReply(token, c.realm.slug, c.name)) && up.writeOk(c)
    ensures var reply := up.mediaReply(token, c.realm.slug, c.name);
      var t := Step(s, userId, token, c, up, now);
      && (reply.Response? && !BattleNetClient.Ok(reply) ==>
            && |t.saved| == |s.saved| + 1
            && t.saved[|s.saved|] == t.rows[(userId, c.id)]
            && t.saved[|s.saved|].avatarUrl == None && t.saved[|s.saved|].thumbnailUrl == None)
      && (reply.Rejected? ==> t == s)
  {
  }

  /** The loop over the characters, in order. */
  function SyncAll(rows: map<RowKey, CharacterRow>, userId: string, token: string,
                   chars: seq<BattleNetClient.CharacterSummary>, up: Upstream, now: int): SyncState
  {
    if chars == [] then SyncState(rows, [])
    else Step(SyncAll(rows, userId, token, chars[..|chars| - 1], up, now), userId, token, chars[|chars| - 1], up, now)
  }

  /** The keys the sync writes: one per stored character. */
  function WrittenKeys(userId: string, token: string, chars: seq<BattleNetClient.CharacterSummary>, up: Upstream): set<RowKey>
  {
    if chars == [] then {}
    else
      var c := chars[|chars| - 1];
      WrittenKeys(userId, token, chars[..|chars| - 1], up) + (if Written(token, c, up) then {(userId, c.id)} else {})
  }

  /** One step keeps one row exactly when the character is written, and
      that row is the caller's. */
  lemma StepSaved(s: SyncState, userId: string, token: string, c: BattleNetClient.CharacterSummary, up: Upstream, now: int)
    ensures var t := Step(s, userId, token, c, up, now);
      && t.saved[..|s.saved|] == s.saved
      && |t.saved| == |s.saved| + (if Written(token, c, up) then 1 else 0)
      && forall i :: |s.saved| <= i < |t.saved| ==> t.saved[i].userId == userId
  {
  }

  /** `count` is the number of characters that were stored, so it never
      exceeds the number of upstream characters. */
  lemma {:induction false} SyncCount(rows: map<RowKey, CharacterRow>, userId: string, token: string,
                                     chars: seq<BattleNetClient.CharacterSummary>, up: Upstream, now: int)
    ensures |SyncAll(rows, userId, token, chars, up, now).saved| == Count(chars, WrittenBy(token, up)) <= |chars|
  {
    if chars != [] {
      SavedSnoc(rows, userId, token, chars, up, now);
      SyncCount(rows, userId, token, chars[..|chars| - 1], up, now);
      CountWrittenSnoc(chars, token, up);
    }
  }

  /** The fold's last step keeps one more row exactly when the last
      character is written. */
  lemma SavedSnoc(rows: map<RowKey, CharacterRow>, userId: string, token: string,
                  chars: seq<BattleNetClient.CharacterSummary>, up: Upstream, now: int)
    requires chars != []
    ensures |SyncAll(rows, userId, token, chars, up, now).saved|
         == |SyncAll(rows, userId, token, chars[..|chars| - 1], up, now).saved|
            + (if Written(token, chars[|chars| - 1], up) then 1 else 0)
  {
    SyncAllSnoc(rows, userId, token, chars, up, now);
    StepCount(SyncAll(rows, userId, token, chars[..|chars| - 1], up, now), userId, token, chars[|chars| - 1], up, now);
  }

  /** The fold's last step. */
  lemma SyncAllSnoc(rows: map<RowKey, CharacterRow>, userId: string, token: string,
                    chars: seq<BattleNetClient.CharacterSummary>, up: Upstream, now: int)
    requires chars != []
    ensures SyncAll(rows, userId, token, chars, up, now)
         == Step(SyncAll(rows, userId, token, chars[..|chars| - 1], up, now), userId, token, chars[|chars| - 1], up, now)
  {
  }

  lemma StepCount(s: SyncState, userId: string, token: string, c: BattleNetClient.CharacterSummary, up: Upstream, now: int)
    ensures |Step(s, userId, token, c, up, now).saved| == |s.saved| + (if Written(token, c, up) then 1 else 0)
  {
  }

  lemma CountWrittenSnoc(chars: seq<BattleNetClient.CharacterSummary>, token: string, up: Upstream)
    requires chars != []
    ensures Count(chars, WrittenBy(token, up))
         == Count(chars[..|chars| - 1], WrittenBy(token, up)) + (if Written(token, chars[|chars| - 1], up) then 1 else 0)
  {
    var init, c := chars[..|chars| - 1], chars[|chars| - 1];
    assert chars == init + [c];
    FilterAppend(init, [c], WrittenBy(token, up));
  }

  /** Every row the sync reports is the caller's. */
  lemma {:induction false} SyncSavedOwn(rows: map<RowKey, CharacterRow>, userId: string, token: string,
                                        chars: seq<BattleNetClient.CharacterSummary>, up: Upstream, now: int)
    ensures forall i :: 0 <= i < |SyncAll(rows, userId, token, chars, up, now).saved| ==>
      SyncAll(rows, userId, token, chars, up, now).saved[i].userId == userId
  {
    if chars != [] {
      var init := chars[..|chars| - 1];
      SyncSavedOwn(rows, userId, token, init, up, now);
      var before := SyncAll(rows, userId, token, init, up, now);
      StepSaved(before, userId, token, chars[|chars| - 1], up, now);
      var after := SyncAll(rows, userId, token, chars, up, now);
      assert after == Step(before, userId, token, chars[|chars| - 1], up, now);
      forall i | 0 <= i < |after.saved| ensures after.saved[i].userId == userId {
        if i < |before.saved| {
          assert after.saved[i] == after.saved[..|before.saved|][i] == before.saved[i];
        }
      }
    }
  }

  /** The sync adds exactly the keys of the stored characters and leaves
      every other user's rows alone; the table stays keyed. */
  lemma {:induction false} SyncKeys(rows: map<RowKey, CharacterRow>, userId: string, token: string,
                                    chars: seq<BattleNetClient.CharacterSummary>, up: Upstream, now: int)
    requires Keyed(rows)
    ensures var after := SyncAll(rows, userId, token, chars, up, now).rows;
      && Keyed(after)
      && after.Keys == rows.Keys + WrittenKeys(userId, token, chars, up)
      && forall k :: k in rows && k.0 != userId ==> after[k] == rows[k]
  {
    if chars != [] {
      var init := chars[..|chars| - 1];
      var before := SyncAll(rows, userId, token, init, up, now);
      assert SyncAll(rows, userId, token, chars, up, now) == Step(before, userId, token, chars[|chars| - 1], up, now);
      SyncKeys(rows, userId, token, init, up, now);
      StepKeys(before, userId, token, chars[|chars| - 1], up, now);
    }
  }

  /** One step writes the character's key when it is stored and no other. */
  lemma StepKeys(s: SyncState, userId: string, token: string, c: BattleNetClient.CharacterSummary, up: Upstream, now: int)
    requires Keyed(s.rows)
    ensures var t := Step(s, userId, token, c, up, now).rows;
      && Keyed(t)
      && t.Keys == s.rows.Keys + (if Written(token, c, up) then {(userId, c.id)} else {})
      && forall k :: k in s.rows && k.0 != userId ==> t[k] == s.rows[k]
  {
  }

  /** Syncing the same characters again adds no row: the upsert key makes
      the second run overwrite what the first one wrote. */
  lemma SyncRepeatAddsNoRows(rows: map<RowKey, CharacterRow>, userId: string, token: string,
                             chars: seq<BattleNetClient.CharacterSummary>, up: Upstream, now: int, later: int)
    requires Keyed(rows)
    ensures var once := SyncAll(rows, userId, token, chars, up, now).rows;
      SyncAll(once, userId, token, chars, up, later).rows.Keys == once.Keys
  {
    SyncKeys(rows, userId, token, chars, up, now);
    var once := SyncAll(rows, userId, token, chars, up, now).rows;
    SyncKeys(once, userId, token, chars, up, later);
  }

  /** A character marked as main stays main through a sync. */
  lemma {:induction false} SyncKeepsMain(rows: map<RowKey, CharacterRow>, userId: string, token: string,
                                         chars: seq<BattleNetClient.CharacterSummary>, up: Upstream, now: int, k: RowKey)
    requires k in rows && rows[k].isMain
    ensures var after := SyncAll(rows, userId, token, chars, up, now).rows;
      k in after && after[k].isMain
  {
    if chars != [] {
      SyncKeepsMain(rows, userId, token, chars[..|chars| - 1], up, now, k);
    }
  }

  // ---------------------------------------------------------------------
  // POST

  datatype SyncResponse = Synced(count: nat, characters: seq<CharacterRow>) | SyncFailure(status: int, error: string)

  /** The account with the given `id`, if there is one (ids are unique in
      a well-keyed account table). */
  ghost function AccountWithId(accounts: map<int, OAuthCallback.AccountRow>, id: string): Option<int>
  {
    if exists k :: k in accounts && accounts[k].id == id then
      var k :| k in accounts && accounts[k].id == id; Some(k)
    else None
  }

  class CharacterTable {
    var rows: map<RowKey, CharacterRow>

    ghost predicate Valid()
      reads this
    {
      Keyed(rows)
    }

    constructor (initial: map<RowKey, CharacterRow>)
      requires Keyed(initial)
      ensures Valid() && rows == initial
    {
      rows := initial;
    }

    /** The loop of lines 122-176: returns the rows the database returned,
        in order. */
    method Sync(userId: string, token: string, chars: seq<BattleNetClient.CharacterSummary>, up: Upstream, now: int)
      returns (saved: seq<CharacterRow>)
      requires Valid()
      modifies this
      ensures Valid()
      ensures SyncState(rows, saved) == SyncAll(old(rows), userId, token, chars, up, now)
    {
      SyncKeys(rows, userId, token, chars, up, now);
      saved := [];
      var i := 0;
      while i < |chars|
        invariant 0 <= i <= |chars|
        invariant SyncState(rows, saved) == SyncAll(old(rows), userId, token, chars[..i], up, now)
      {
        var c := chars[i];
        assert chars[..i + 1][..i] == chars[..i];
        var profile := ProfileOf(token, c, up);
        if profile.Returned? {
          var media := MediaOf(token, c, up);
          if !media.Thrown? && up.writeOk(c) {
            var row := Upserted(rows, userId, c, profile.value, MediaValue(media), now);
            rows := rows[(userId, c.id) := row];
            saved := saved + [row];
          }
        }
        i := i + 1;
      }
      assert chars[..|chars|] == chars;
    }

    /** POST. `lookupFails` is whether the account query reported an
        error; `refreshWith` and `charactersWith` answer the token endpoint
        and the account-profile request; `refreshWriteOk` is whether the
        token update was applied (its error is not checked). */
    method Post(accounts: OAuthCallback.AccountTable, cookie: Option<string>, verify: string -> Decoded,
                lookupFails: bool,
                refreshWith: string -> BattleNetClient.Reply<OAuthCallback.TokenResponse>, refreshWriteOk: bool,
                charactersWith: string -> BattleNetClient.Reply<Option<seq<BattleNetClient.Account>>>,
                up: Upstream, now: int)
      returns (r: SyncResponse)
      requires Valid() && accounts.Valid()
      modifies this, accounts
      ensures Valid() && accounts.Valid()
      ensures var auth := Authenticate(cookie, verify, "Failed to sync characters");
        auth.Denied? ==> r == SyncFailure(auth.status, auth.error) && rows == old(rows) && accounts.rows == old(accounts.rows)
      ensures var auth := Authenticate(cookie, verify, "Failed to sync characters");
        auth.Authorized? && (lookupFails || AccountWithId(old(accounts.rows), auth.userId).None?) ==>
          r == SyncFailure(404, "User not found") && rows == old(rows) && accounts.rows == old(accounts.rows)
      ensures var auth := Authenticate(cookie, verify, "Failed to sync characters");
        auth.Authorized? && !lookupFails && AccountWithId(old(accounts.rows), auth.userId).Some? ==>
          var k := AccountWithId(old(accounts.rows), auth.userId).value;
          var account := old(accounts.rows)[k];
          var grant := RefreshOutcome(account, refreshWith);
          var token := TokenFor(account, refreshWith, now);
          && (!NeedsRefresh(account, now) ==> accounts.rows == old(accounts.rows))
          && (NeedsRefresh(account, now) && grant.Returned? && refreshWriteOk ==>
                accounts.rows == old(accounts.rows)[k := Refreshed(account, grant.value, now)])
          && (NeedsRefresh(account, now) && grant.Returned? && !refreshWriteOk ==> accounts.rows == old(accounts.rows))
          && (token.None? ==> r == SyncFailure(401, "Failed to refresh access token") && rows == old(rows)
                              && accounts.rows == old(accounts.rows))
          && (token.Some? && !BattleNetClient.CharacterList(charactersWith(token.value)).Returned? ==>
                r == SyncFailure(500, "Failed to sync characters") && rows == old(rows))
          && (token.Some? && BattleNetClient.CharacterList(charactersWith(token.value)).Returned? ==>
                var s := SyncAll(old(rows), account.id, token.value,
                                 BattleNetClient.CharacterList(charactersWith(token.value)).value, up, now);
                rows == s.rows && r == Synced(|s.saved|, s.saved))
    {
      var auth := Authenticate(cookie, verify, "Failed to sync characters");
      if auth.Denied? {
        return SyncFailure(auth.status, auth.error);
      }
      if lookupFails || !(exists k :: k in accounts.rows && accounts.rows[k].id == auth.userId) {
        return SyncFailure(404, "User not found");
      }
      var k :| k in accounts.rows && accounts.rows[k].id == auth.userId;
      assert AccountWithId(accounts.rows, auth.userId) == Some(k);
      var account := accounts.rows[k];
      var accessToken := account.accessToken;
      if NeedsRefresh(account, now) {
        var grant := RefreshOutcome(account, refreshWith);
        if !grant.Returned? {
          return SyncFailure(401, "Failed to refresh access token");
        }
        if refreshWriteOk {
          accounts.rows := accounts.rows[k := Refreshed(account, grant.value, now)];
        }
        accessToken := grant.value.accessToken;
      }
      var chars := BattleNetClient.CharacterList(charactersWith(accessToken));
      if !chars.Returned? {
        return SyncFailure(500, "Failed to sync characters");
      }
      var saved := Sync(account.id, accessToken, chars.value, up, now);
      r := Synced(|saved|, saved);
    }
  }
}
