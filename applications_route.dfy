/** `/api/applications`: POST validates and stores a guild application;
    GET lists the stored ones, newest first. */
module ApplicationsRoute {

  import opened Common
  import opened Js
  import Text
  import Ordering

  /** The JSON body's fields. */
  datatype Body = Body(
    charName: Value,
    charClass: Value,
    charSpec: Value,
    ilvl: Value,
    rio: Value,
    experience: Value,
    motivation: Value,
    availability: Value,
    discord: Value)

  /** The row inserted into `applications`. A NaN integer parse is sent as
      JSON null, so both parses are Option<int>. */
  datatype Record = Record(
    characterName: Value,
    characterClass: Value,
    specialization: Value,
    itemLevel: Option<int>,
    raiderioScore: Option<int>,
    experience: Value,
    motivation: Value,
    availability: Value,
    discordName: Value,
    status: string)

  /** Line 23: every field but rio and availability must be truthy. */
  predicate Complete(b: Body) {
    Truthy(b.charName) && Truthy(b.charClass) && Truthy(b.charSpec) && Truthy(b.ilvl)
    && Truthy(b.experience) && Truthy(b.motivation) && Truthy(b.discord)
  }

  /** Lines 31-33: an array is joined with ','; anything else is kept. */
  function AvailabilityText(v: Value): (r: Value)
    ensures v.Arr? ==> r == Str(JoinValues(v.items, ","))
    ensures !v.Arr? ==> r == v
  {
    if v.Arr? then Str(JoinValues(v.items, ",")) else v
  }

  /** Splitting the stored text on ',' (as the admin page does to display
      it) gives back the chosen days, provided there was at least one and
      none contains a comma. */
  lemma AvailabilityRoundTrip(days: seq<string>)
    requires |days| >= 1
    requires forall i :: 0 <= i < |days| ==> ',' !in days[i]
    ensures AvailabilityText(Arr(Strs(days))) == Str(Text.Join(days, ","))
    ensures Text.Split(AvailabilityText(Arr(Strs(days))).s, ',') == days
  {
    JoinPiecesStrings(days);
    Text.SplitJoin(days, ',');
  }

  /** An empty choice is stored as "", which splits to one empty piece. */
  lemma NoAvailabilityStoredEmpty()
    ensures AvailabilityText(Arr([])) == Str("")
    ensures Text.Split("", ',') == [""]
  {
  }

  /** Lines 38-49. */
  function ToRecord(b: Body): (r: Record)
    ensures r.status == "pending"
    ensures r.itemLevel == ParseInt(ToStr(b.ilvl))
    ensures !Truthy(b.rio) ==> r.raiderioScore == None
    ensures Truthy(b.rio) ==> r.raiderioScore == ParseInt(ToStr(b.rio))
    ensures r.availability == AvailabilityText(b.availability)
    ensures r.characterName == b.charName && r.discordName == b.discord
    ensures r.characterClass == b.charClass && r.specialization == b.charSpec
    ensures r.experience == b.experience && r.motivation == b.motivation
  {
    Record(b.charName, b.charClass, b.charSpec,
           ParseInt(ToStr(b.ilvl)),
           if Truthy(b.rio) then ParseInt(ToStr(b.rio)) else None,
           b.experience, b.motivation, AvailabilityText(b.availability), b.discord, "pending")
  }

  /** A numeric item level is stored as that number. */
  lemma NumericItemLevel(b: Body, n: int)
    requires b.ilvl == Num(n)
    ensures ToRecord(b).itemLevel == Some(n)
  {
    ParseIntShowInt(n);
  }

  datatype Response = Created | BadRequest(error: string) | ServerError(error: string)

  /** What POST did: its response, the row it inserted and the log entry. */
  datatype Effects = Effects(response: Response, insert: Option<Record>, log: Option<string>)

  /** POST. `body` is None when it is not JSON; `insertFails` is whether
      the insert reports an error. */
  function Post(body: Option<Body>, insertFails: bool): (e: Effects)
    ensures body.None? ==> e == Effects(ServerError("Internal server error"), None, None)
    ensures body.Some? && !Complete(body.value) ==> e == Effects(BadRequest("Missing required fields"), None, None)
    ensures e.insert.Some? <==> body.Some? && Complete(body.value)
    ensures e.insert.Some? ==> e.insert.value == ToRecord(body.value) && e.insert.value.status == "pending"
    ensures e.response == Created <==> e.insert.Some? && !insertFails
    ensures e.insert.Some? && insertFails ==> e.response == ServerError("Failed to submit application")
    ensures e.log.Some? <==> e.response == Created
    ensures e.log.Some? ==> e.log.value == "New application from: " + ToStr(body.value.charName)
  {
    match body
    case None => Effects(ServerError("Internal server error"), None, None)
    case Some(b) =>
      if !Complete(b) then Effects(BadRequest("Missing required fields"), None, None)
      else if insertFails then Effects(ServerError("Failed to submit application"), Some(ToRecord(b)), None)
      else Effects(Created, Some(ToRecord(b)), Some("New application from: " + ToStr(b.charName)))
  }

  /** Rio and availability are optional: a body with only the required
      fields is accepted. */
  lemma OptionalFields(b: Body)
    requires Complete(b)
    ensures Post(Some(b.(rio := Undefined, availability := Undefined)), false).response == Created
  {
  }

  // ---------------------------------------------------------------------
  // GET

  /** A stored application; only the creation time matters for the order. */
  datatype Stored = Stored(id: string, characterName: string, status: string, createdAt: int)

  datatype ListResponse = Applications(applications: seq<Stored>) | ListFailure(status: int, error: string)

  function CreatedDesc(a: Stored): Ordering.Key
  {
    Ordering.Key(-a.createdAt, 0)
  }

  function List(stored: seq<Stored>, queryFailed: bool): (r: ListResponse)
    ensures queryFailed <==> r.ListFailure?
  {
    if queryFailed then ListFailure(500, "Failed to fetch applications")
    else Applications(Ordering.SortBy(stored, CreatedDesc))
  }

  /** GET returns every stored application once, newest first. */
  lemma ListNewestFirst(stored: seq<Stored>)
    ensures var apps := List(stored, false).applications;
      && multiset(apps) == multiset(stored)
      && forall i, j :: 0 <= i < j < |apps| ==> apps[i].createdAt >= apps[j].createdAt
  {
    Ordering.SortByPermutes(stored, CreatedDesc);
    Ordering.SortBySorted(stored, CreatedDesc);
  }
}
