/** `PUT /api/admin/raids/boss`: sets a boss's status, normalising its
    progress and kill date, and logs the change. */
module BossRoute {

  import opened Common
  import opened Js

  /** The JSON body's fields; None when the body is not JSON. */
  datatype Body = Body(id: Value, status: Value, progress: Value, killDate: Value)

  /** The columns written (lines 19-29). */
  datatype Update = Update(status: Value, progress: Value, killDate: Value)

  predicate IsKilled(status: Value) { status == Str("killed") }

  /** Lines 19-29: a killed boss is at 100 % and has a kill date, today's
      unless one was given; any other status keeps the given progress (0
      when falsy) and clears the kill date. `today` is the current UTC date
      as YYYY-MM-DD. */
  function Prepare(b: Body, today: string): (u: Update)
    ensures u.status == b.status
    ensures IsKilled(b.status) ==> u.progress == Num(100)
    ensures !IsKilled(b.status) && Truthy(b.progress) ==> u.progress == b.progress
    ensures !IsKilled(b.status) && !Truthy(b.progress) ==> u.progress == Num(0)
    ensures IsKilled(b.status) && Truthy(b.killDate) ==> u.killDate == b.killDate
    ensures IsKilled(b.status) && !Truthy(b.killDate) ==> u.killDate == Str(today)
    ensures !IsKilled(b.status) ==> u.killDate == Null
  {
    Update(b.status,
           if IsKilled(b.status) then Num(100) else Or(b.progress, Num(0)),
           if IsKilled(b.status) then Or(b.killDate, Str(today)) else Null)
  }

  /** A killed boss always has a truthy kill date, and a boss that is not
      killed never has one. */
  lemma KillDateIffKilled(b: Body, today: string)
    requires today != ""
    ensures Truthy(Prepare(b, today).killDate) <==> IsKilled(b.status)
  {
  }

  /** A row of `bosses` as the update returns it. */
  datatype BossRow = BossRow(id: string, name: string)

  datatype Response =
    | BadRequest(error: string)
    | ServerError(error: string)
    | Updated(data: seq<BossRow>)

  /** What the handler did: its response, the update it issued (the boss
      id and the columns) and the activity-log entry it wrote. */
  datatype Effects = Effects(response: Response, write: Option<(Value, Update)>, log: Option<string>)

  /** The handler. `returned` and `queryFailed` are the update's answer:
      the rows it changed, and whether it reported an error. */
  function Put(body: Option<Body>, today: string, queryFailed: bool, returned: seq<BossRow>): (e: Effects)
    ensures body.None? ==> e == Effects(ServerError("Internal server error"), None, None)
    ensures body.Some? && (!Truthy(body.value.id) || !Truthy(body.value.status)) ==>
      e == Effects(BadRequest("Boss ID and status are required"), None, None)
    ensures e.write.Some? <==> body.Some? && Truthy(body.value.id) && Truthy(body.value.status)
    ensures e.write.Some? ==> e.write.value == (body.value.id, Prepare(body.value, today))
    ensures e.write.Some? && queryFailed ==> e.response == ServerError("Failed to update boss")
    ensures e.write.Some? && !queryFailed ==> e.response == Updated(returned)
    ensures e.log.Some? <==> e.write.Some? && !queryFailed && |returned| > 0
    ensures e.log.Some? ==> e.log.value == "Boss status updated: " + returned[0].name + " - " + ToStr(body.value.status)
  {
    match body
    case None => Effects(ServerError("Internal server error"), None, None)
    case Some(b) =>
      if !Truthy(b.id) || !Truthy(b.status) then Effects(BadRequest("Boss ID and status are required"), None, None)
      else
        var write := Some((b.id, Prepare(b, today)));
        if queryFailed then Effects(ServerError("Failed to update boss"), write, None)
        else if returned == [] then Effects(Updated(returned), write, None)
        else Effects(Updated(returned), write, Some("Boss status updated: " + returned[0].name + " - " + ToStr(b.status)))
  }

  /** Killing a boss sets it to 100 % whatever progress the request sent. */
  lemma KilledIsComplete(id: Value, progress: Value, killDate: Value, today: string, returned: seq<BossRow>)
    requires Truthy(id)
    ensures var e := Put(Some(Body(id, Str("killed"), progress, killDate)), today, false, returned);
      e.write.Some? && e.write.value.1.progress == Num(100) && e.response == Updated(returned)
  {
  }
}
