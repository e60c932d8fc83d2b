/** `GET /api/raids`: every raid, newest first, each with its bosses in
    position order. */
module RaidsRoute {

  import opened Common
  import Ordering

  datatype Boss = Boss(id: string, name: string, position: int, status: string)

  /** A fetched raid; `bosses` is absent when the join returned nothing. */
  datatype Raid = Raid(id: string, name: string, createdAt: int, bosses: Option<seq<Boss>>)

  /** A raid as the response carries it. */
  datatype RaidOut = RaidOut(id: string, name: string, createdAt: int, bosses: seq<Boss>)

  /** `(a, b) => a.position - b.position`. */
  function ByPosition(b: Boss): Ordering.Key
  {
    Ordering.Key(b.position, 0)
  }

  /** `.order('created_at', { ascending: false })`. */
  function NewestFirst(r: Raid): Ordering.Key
  {
    Ordering.Key(-r.createdAt, 0)
  }

  /** `{ ...raid, bosses: raid.bosses?.sort(byPosition) || [] }`. */
  function WithSortedBosses(r: Raid): RaidOut
  {
    RaidOut(r.id, r.name, r.createdAt,
            match r.bosses
            case None => []
            case Some(bs) => Ordering.SortBy(bs, ByPosition))
  }

  /** The bosses come back in ascending position, as a permutation of the
      fetched ones (an absent list becomes []), and every other field of
      the raid is as fetched. */
  lemma SortedBosses(r: Raid)
    ensures var out := WithSortedBosses(r);
      && out.id == r.id && out.name == r.name && out.createdAt == r.createdAt
      && (r.bosses.None? ==> out.bosses == [])
      && (r.bosses.Some? ==> multiset(out.bosses) == multiset(r.bosses.value))
      && forall i, j :: 0 <= i < j < |out.bosses| ==> out.bosses[i].position <= out.bosses[j].position
  {
    if r.bosses.Some? {
      Ordering.SortByPermutes(r.bosses.value, ByPosition);
      Ordering.SortBySorted(r.bosses.value, ByPosition);
    }
  }

  /** Bosses with the same position keep their fetched order: a list
      already in position order is returned as it is. */
  lemma OrderedBossesUnchanged(r: Raid)
    requires r.bosses.Some?
    requires forall i, j :: 0 <= i < j < |r.bosses.value| ==> r.bosses.value[i].position <= r.bosses.value[j].position
    ensures WithSortedBosses(r).bosses == r.bosses.value
  {
    Ordering.SortByOfSorted(r.bosses.value, ByPosition);
  }

  datatype Response = Raids(raids: Option<seq<RaidOut>>) | Failure(status: int, error: string)

  /** The handler. `data` is what the query answered: None when it
      answered null without an error. `raids?.map(...)` is then undefined,
      so `Raids(None)` is a body with no `raids` field. */
  function Get(data: Option<seq<Raid>>, queryFailed: bool): (r: Response)
    ensures queryFailed <==> r == Failure(500, "Failed to fetch raids")
    ensures r.Raids? ==> (r.raids.Some? <==> data.Some?)
    ensures r.Raids? && data.Some? ==> |r.raids.value| == |data.value|
  {
    if queryFailed then Failure(500, "Failed to fetch raids")
    else match data
      case None => Raids(None)
      case Some(stored) =>
        var fetched := Ordering.SortBy(stored, NewestFirst);
        Raids(Some(seq(|fetched|, i requires 0 <= i < |fetched| => WithSortedBosses(fetched[i]))))
  }

  /** Raids come newest first, and the i-th raid of the response is the
      i-th fetched raid with its bosses sorted. */
  lemma RaidsNewestFirst(stored: seq<Raid>)
    ensures var out := Get(Some(stored), false).raids.value;
      var fetched := Ordering.SortBy(stored, NewestFirst);
      && multiset(fetched) == multiset(stored)
      && (forall i :: 0 <= i < |out| ==> out[i] == WithSortedBosses(fetched[i]))
      && forall i, j :: 0 <= i < j < |out| ==> out[i].createdAt >= out[j].createdAt
  {
    Ordering.SortByPermutes(stored, NewestFirst);
    Ordering.SortBySorted(stored, NewestFirst);
  }
}
