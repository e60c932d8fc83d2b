/** `/api/admin/events`: list, create, update and delete guild events.
    Each handler validates the JSON body, builds one record with defaults
    and issues one write. */
module EventsRoute {

  import opened Common
  import opened Js
  import Ordering

  /** The JSON body's fields (DELETE reads only `id`). */
  datatype Body = Body(
    id: Value,
    title: Value,
    description: Value,
    eventType: Value,
    eventDate: Value,
    eventTime: Value,
    maxAttendees: Value,
    status: Value)

  /** The columns a create or an update writes; `currentAttendees` is None
      when the write does not name the column. */
  datatype Record = Record(
    title: Value,
    description: Value,
    eventType: Value,
    eventDate: Value,
    eventTime: Value,
    maxAttendees: Value,
    currentAttendees: Option<int>,
    status: Value)

  /** The defaults both writes apply: a falsy description or attendee cap
      is stored as null and a falsy status as 'scheduled'. */
  function WithDefaults(b: Body, currentAttendees: Option<int>): (r: Record)
    ensures r.title == b.title && r.eventType == b.eventType && r.eventDate == b.eventDate && r.eventTime == b.eventTime
    ensures Truthy(b.description) ==> r.description == b.description
    ensures !Truthy(b.description) ==> r.description == Null
    ensures Truthy(b.maxAttendees) ==> r.maxAttendees == b.maxAttendees
    ensures !Truthy(b.maxAttendees) ==> r.maxAttendees == Null
    ensures Truthy(b.status) ==> r.status == b.status
    ensures !Truthy(b.status) ==> r.status == Str("scheduled")
    ensures r.currentAttendees == currentAttendees
  {
    Record(b.title, Or(b.description, Null), b.eventType, b.eventDate, b.eventTime,
           Or(b.maxAttendees, Null), currentAttendees, Or(b.status, Str("scheduled")))
  }

  /** A stored status is never falsy, and neither null column ever holds a
      falsy value other than null. */
  lemma DefaultsNeverFalsy(b: Body, currentAttendees: Option<int>)
    ensures var r := WithDefaults(b, currentAttendees);
      && Truthy(r.status)
      && (r.description == Null || Truthy(r.description))
      && (r.maxAttendees == Null || Truthy(r.maxAttendees))
  {
  }

  datatype Response = Done(status: int) | Failure(status: int, error: string)

  /** The write a handler issued. */
  datatype Write =
    | Insert(record: Record)
    | Update(id: Value, record: Record, updatedAt: int)
    | Delete(id: Value)

  datatype Effects = Effects(response: Response, write: Option<Write>, log: Option<string>)

  const Internal := Failure(500, "Internal server error")

  /** POST (lines 33-98): title, type, date and time are required; the new
      event has no attendees. */
  function Post(body: Option<Body>, writeFails: bool): (e: Effects)
    ensures body.None? ==> e == Effects(Internal, None, None)
    ensures e.write.Some? <==>
      body.Some? && Truthy(body.value.title) && Truthy(body.value.eventType)
      && Truthy(body.value.eventDate) && Truthy(body.value.eventTime)
    ensures body.Some? && e.write.None? ==> e == Effects(Failure(400, "Missing required fields"), None, None)
    ensures e.write.Some? ==> e.write.value == Insert(WithDefaults(body.value, Some(0)))
    ensures e.response == Done(201) <==> e.write.Some? && !writeFails
    ensures e.write.Some? && writeFails ==> e.response == Failure(500, "Failed to create event")
    ensures e.log.Some? <==> e.response == Done(201)
    ensures e.log.Some? ==> e.log.value == "New event created: " + ToStr(body.value.title)
  {
    match body
    case None => Effects(Internal, None, None)
    case Some(b) =>
      if !Truthy(b.title) || !Truthy(b.eventType) || !Truthy(b.eventDate) || !Truthy(b.eventTime) then
        Effects(Failure(400, "Missing required fields"), None, None)
      else if writeFails then Effects(Failure(500, "Failed to create event"), Some(Insert(WithDefaults(b, Some(0)))), None)
      else Effects(Done(201), Some(Insert(WithDefaults(b, Some(0)))), Some("New event created: " + ToStr(b.title)))
  }

  /** PUT (lines 100-166): only the id is required; the update never
      touches the attendee count. */
  function Put(body: Option<Body>, writeFails: bool, now: int): (e: Effects)
    ensures body.None? ==> e == Effects(Internal, None, None)
    ensures e.write.Some? <==> body.Some? && Truthy(body.value.id)
    ensures body.Some? && e.write.None? ==> e == Effects(Failure(400, "Event ID is required"), None, None)
    ensures e.write.Some? ==> e.write.value == Update(body.value.id, WithDefaults(body.value, None), now)
    ensures e.write.Some? ==> e.write.value.record.currentAttendees.None?
    ensures e.response == Done(200) <==> e.write.Some? && !writeFails
    ensures e.write.Some? && writeFails ==> e.response == Failure(500, "Failed to update event")
    ensures e.log.Some? <==> e.response == Done(200)
    ensures e.log.Some? ==> e.log.value == "Event updated: " + ToStr(body.value.title)
  {
    match body
    case None => Effects(Internal, None, None)
    case Some(b) =>
      if !Truthy(b.id) then Effects(Failure(400, "Event ID is required"), None, None)
      else if writeFails then Effects(Failure(500, "Failed to update event"), Some(Update(b.id, WithDefaults(b, None), now)), None)
      else Effects(Done(200), Some(Update(b.id, WithDefaults(b, None), now)), Some("Event updated: " + ToStr(b.title)))
  }

  /** `eventData?.title || 'Unknown'`. */
  function TitleOrUnknown(found: Option<string>): (t: string)
    ensures t != ""
    ensures found.Some? && found.value != "" ==> t == found.value
    ensures found.None? || found.value == "" ==> t == "Unknown"
  {
    if Given(found) then found.value else "Unknown"
  }

  /** DELETE (lines 168-221). `found` is the title the lookup returned
      (None when no event has that id). */
  function Remove(id: Option<Value>, found: Option<string>, writeFails: bool): (e: Effects)
    ensures id.None? ==> e == Effects(Internal, None, None)
    ensures e.write.Some? <==> id.Some? && Truthy(id.value)
    ensures id.Some? && e.write.None? ==> e == Effects(Failure(400, "Event ID is required"), None, None)
    ensures e.write.Some? ==> e.write.value == Delete(id.value)
    ensures e.response == Done(200) <==> e.write.Some? && !writeFails
    ensures e.write.Some? && writeFails ==> e.response == Failure(500, "Failed to delete event")
    ensures e.log.Some? <==> e.response == Done(200)
    ensures e.log.Some? ==> e.log.value == "Event deleted: " + TitleOrUnknown(found)
  {
    match id
    case None => Effects(Internal, None, None)
    case Some(v) =>
      if !Truthy(v) then Effects(Failure(400, "Event ID is required"), None, None)
      else if writeFails then Effects(Failure(500, "Failed to delete event"), Some(Delete(v)), None)
      else Effects(Done(200), Some(Delete(v)), Some("Event deleted: " + TitleOrUnknown(found)))
  }

  /** Deleting an event nobody can find still succeeds and logs it as
      'Unknown'. */
  lemma DeleteUnknown(id: Value)
    requires Truthy(id)
    ensures Remove(Some(id), None, false).log == Some("Event deleted: Unknown")
  {
    assert "Event deleted: " + "Unknown" == "Event deleted: Unknown";
  }

  // ---------------------------------------------------------------------
  // GET

  /** A stored event; the date as a day number and the time in minutes
      after midnight. */
  datatype Stored = Stored(id: string, title: string, day: int, minutes: int)

  /** `.order('event_date').order('event_time')`, both ascending. */
  function Chronological(e: Stored): Ordering.Key
  {
    Ordering.Key(e.day, e.minutes)
  }

  datatype ListResponse = Events(events: seq<Stored>) | ListFailure(status: int, error: string)

  function List(stored: seq<Stored>, queryFailed: bool): (r: ListResponse)
    ensures queryFailed <==> r.ListFailure?
  {
    if queryFailed then ListFailure(500, "Failed to fetch events") else Events(Ordering.SortBy(stored, Chronological))
  }

  /** GET returns every event once, earliest date first and, within a day,
      earliest time first. */
  lemma ListChronological(stored: seq<Stored>)
    ensures var es := List(stored, false).events;
      && multiset(es) == multiset(stored)
      && forall i, j :: 0 <= i < j < |es| ==>
           es[i].day < es[j].day || (es[i].day == es[j].day && es[i].minutes <= es[j].minutes)
  {
    Ordering.SortByPermutes(stored, Chronological);
    Ordering.SortBySorted(stored, Chronological);
  }
}
