/** `PUT /api/admin/settings`: writes each entry of the JSON body as one
    `guild_settings` row, stopping at the first failed write, and logs the
    change once all of them succeeded. The table is a map keyed by
    `setting_key`. */
module AdminSettingsRoute {

  import opened Common
  import Js

  /** A stored setting: the value as the body sent it and when it was
      written. */
  datatype Setting = Setting(value: Js.Value, updatedAt: int)

  /** The table after upserting the entries in order. */
  function Applied(rows: map<string, Setting>, entries: seq<(string, Js.Value)>, now: int): map<string, Setting>
  {
    if entries == [] then rows
    else
      var last := entries[|entries| - 1];
      Applied(rows, entries[..|entries| - 1], now)[last.0 := Setting(last.1, now)]
  }

  /** The index of the first entry whose write fails, if any. */
  function FirstFailure(entries: seq<(string, Js.Value)>, fails: string -> bool): (r: Option<nat>)
    ensures r.Some? ==> r.value < |entries| && fails(entries[r.value].0)
                        && forall j :: 0 <= j < r.value ==> !fails(entries[j].0)
    ensures r.None? ==> forall j :: 0 <= j < |entries| ==> !fails(entries[j].0)
  {
    if entries == [] then None
    else if fails(entries[0].0) then Some(0)
    else match FirstFailure(entries[1..], fails)
      case None => None
      case Some(i) => Some(i + 1)
  }

  /** The keys of some entries, in order. */
  function Keys(entries: seq<(string, Js.Value)>): (ks: seq<string>)
    ensures |ks| == |entries|
    ensures forall i :: 0 <= i < |entries| ==> ks[i] == entries[i].0
  {
    if entries == [] then [] else [entries[0].0] + Keys(entries[1..])
  }

  /** Upserting adds the entries' keys and keeps every other row. */
  lemma {:induction false} AppliedKeys(rows: map<string, Setting>, entries: seq<(string, Js.Value)>, now: int)
    ensures Applied(rows, entries, now).Keys == rows.Keys + set i | 0 <= i < |entries| :: entries[i].0
    ensures forall k :: k in rows && (forall i :: 0 <= i < |entries| ==> entries[i].0 != k) ==>
              Applied(rows, entries, now)[k] == rows[k]
  {
    if entries != [] {
      var init := entries[..|entries| - 1];
      AppliedKeys(rows, init, now);
      assert forall i :: 0 <= i < |init| ==> init[i] == entries[i];
    }
  }

  /** The value under a key is that of its last entry, stamped with the
      time of the request. */
  lemma {:induction false} AppliedLastWins(rows: map<string, Setting>, entries: seq<(string, Js.Value)>, now: int, i: nat)
    requires i < |entries|
    requires forall j :: i < j < |entries| ==> entries[j].0 != entries[i].0
    ensures entries[i].0 in Applied(rows, entries, now)
    ensures Applied(rows, entries, now)[entries[i].0] == Setting(entries[i].1, now)
  {
    if i < |entries| - 1 {
      AppliedLastWins(rows, entries[..|entries| - 1], now, i);
    }
  }

  /** Extending a prefix by one entry writes one more key and applies one
      more upsert. */
  lemma PrefixStep(rows: map<string, Setting>, es: seq<(string, Js.Value)>, i: nat, now: int)
    requires i < |es|
    ensures Keys(es[..i + 1]) == Keys(es[..i]) + [es[i].0]
    ensures Applied(rows, es[..i + 1], now) == Applied(rows, es[..i], now)[es[i].0 := Setting(es[i].1, now)]
  {
    assert es[..i + 1][..i] == es[..i];
  }

  /** The first failing entry is the one after a run of successes. */
  lemma FailureAt(es: seq<(string, Js.Value)>, fails: string -> bool, i: nat)
    requires i < |es| && fails(es[i].0)
    requires forall j :: 0 <= j < i ==> !fails(es[j].0)
    ensures FirstFailure(es, fails) == Some(i)
  {
    var r := FirstFailure(es, fails);
    if r.None? || r.value != i {
      assert false;
    }
  }

  lemma NoFailure(es: seq<(string, Js.Value)>, fails: string -> bool)
    requires forall j :: 0 <= j < |es| ==> !fails(es[j].0)
    ensures FirstFailure(es, fails).None?
  {
    var r := FirstFailure(es, fails);
    if r.Some? {
      assert false;
    }
  }

  datatype Response = Saved | Failure(status: int, error: string)

  class SettingsTable {
    var rows: map<string, Setting>

    constructor (initial: map<string, Setting>)
      ensures rows == initial
    {
      rows := initial;
    }

    /** The handler. `entries` is `Object.entries(body)` (None when the body
        is not JSON); `fails(key)` is whether the upsert of that key
        reports an error. `writes` are the keys upserted, in order, and
        `logged` whether the activity log was written. */
    method Put(entries: Option<seq<(string, Js.Value)>>, fails: string -> bool, now: int)
      returns (r: Response, writes: seq<string>, logged: bool)
      modifies this
      ensures entries.None? ==> r == Failure(500, "Internal server error") && writes == [] && !logged && rows == old(rows)
      ensures entries.Some? && FirstFailure(entries.value, fails).Some? ==>
        var i := FirstFailure(entries.value, fails).value;
        && r == Failure(500, "Failed to update setting: " + entries.value[i].0)
        && writes == Keys(entries.value[..i + 1])
        && rows == Applied(old(rows), entries.value[..i], now)
        && !logged
      ensures entries.Some? && FirstFailure(entries.value, fails).None? ==>
        r == Saved && writes == Keys(entries.value) && rows == Applied(old(rows), entries.value, now) && logged
    {
      writes, logged := [], false;
      if entries.None? {
        return Failure(500, "Internal server error"), writes, logged;
      }
      var es := entries.value;
      var i := 0;
      while i < |es|
        invariant 0 <= i <= |es|
        invariant forall j :: 0 <= j < i ==> !fails(es[j].0)
        invariant writes == Keys(es[..i])
        invariant rows == Applied(old(rows), es[..i], now)
      {
        var key := es[i].0;
        PrefixStep(old(rows), es, i, now);
        writes := writes + [key];
        if fails(key) {
          FailureAt(es, fails, i);
          return Failure(500, "Failed to update setting: " + key), writes, logged;
        }
        rows := rows[key := Setting(es[i].1, now)];
        i := i + 1;
      }
      NoFailure(es, fails);
      assert es[..|es|] == es;
      logged := true;
      r := Saved;
    }
  }
}
