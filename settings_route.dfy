/** `GET /api/settings`: the rows of `guild_settings` folded into one
    key-to-value dictionary. */
module SettingsRoute {

  import opened Common

  /** A fetched row; `value` is None for a null `setting_value`. */
  datatype SettingRow = SettingRow(key: string, value: Option<string>)

  /** `setting_value || ''`. */
  function ValueOrEmpty(v: Option<string>): (s: string)
    ensures v.Some? ==> s == v.value
    ensures v.None? ==> s == ""
  {
    match v
    case Some(x) => x
    case None => ""
  }

  /** The dictionary after the rows, one after the other. */
  function Settings(rows: seq<SettingRow>): map<string, string>
  {
    if rows == [] then map[]
    else
      var last := rows[|rows| - 1];
      Settings(rows[..|rows| - 1])[last.key := ValueOrEmpty(last.value)]
  }

  /** Every row's key is in the dictionary and nothing else is. */
  lemma {:induction false} SettingsKeys(rows: seq<SettingRow>)
    ensures Settings(rows).Keys == set i | 0 <= i < |rows| :: rows[i].key
  {
    if rows != [] {
      var init := rows[..|rows| - 1];
      SettingsKeys(init);
      assert forall i :: 0 <= i < |init| ==> init[i] == rows[i];
    }
  }

  /** The value under a key is that of the last row with the key (the empty
      string when its value is null). */
  lemma {:induction false} SettingsLastWins(rows: seq<SettingRow>, i: nat)
    requires i < |rows|
    requires forall j :: i < j < |rows| ==> rows[j].key != rows[i].key
    ensures rows[i].key in Settings(rows)
    ensures Settings(rows)[rows[i].key] == ValueOrEmpty(rows[i].value)
  {
    if i < |rows| - 1 {
      var init := rows[..|rows| - 1];
      SettingsLastWins(init, i);
    }
  }

  datatype Response = SettingsMap(settings: map<string, string>) | Failure(status: int, error: string)

  /** The handler keeps a dictionary and fills it row by row (lines 21-24).
      `data` is None for a null result. */
  method Get(data: Option<seq<SettingRow>>, queryFailed: bool) returns (r: Response)
    ensures queryFailed ==> r == Failure(500, "Failed to fetch settings")
    ensures !queryFailed && data.None? ==> r == SettingsMap(map[])
    ensures !queryFailed && data.Some? ==> r == SettingsMap(Settings(data.value))
  {
    if queryFailed {
      return Failure(500, "Failed to fetch settings");
    }
    var settings: map<string, string> := map[];
    if data.Some? {
      var rows := data.value;
      var i := 0;
      while i < |rows|
        invariant 0 <= i <= |rows|
        invariant settings == Settings(rows[..i])
      {
        assert rows[..i + 1][..i] == rows[..i];
        settings := settings[rows[i].key := ValueOrEmpty(rows[i].value)];
        i := i + 1;
      }
      assert rows[..|rows|] == rows;
    }
    r := SettingsMap(settings);
  }
}
