/** The request handler of the visit counter: route dispatch, validation of the
    POST body, the duplicate check, the two updates of an accepted visit, and
    the conversion of every thrown error into a uniform 400 response. The
    table is a field of a class that the handler updates in place. */
module VisitHandler {
  import opened VisitStore

  /** What a `throw` carries: an `Error` object with its message, or any other
      value. */
  datatype Thrown = ErrorObject(message: string) | NonError

  /** The completion of a call: it returned a value or it threw. */
  datatype Outcome<T> = Returned(value: T) | Threw(thrown: Thrown)

  /** An inbound request: the route key and the raw (base64) body, if any. */
  datatype Event = Event(routeKey: string, body: Option<string>)

  /** Decoding a non-empty raw body (base64, then JSON, then reading the
      `user_hash` field): it throws, or yields the field. An absent field and
      the falsy JSON values `null`, `false` and `0` are `None`; the empty
      string is `Some("")`. */
  type Decoder = string -> Outcome<Option<string>>

  /** The JSON object sent back, before it is serialised. */
  datatype ResponseBody = ResponseBody(visits: Option<int>, error: Option<string>)

  datatype Response = Response(statusCode: int, body: ResponseBody, headers: map<string, string>)

  const GetRoute: string := "GET /visits"
  const PostRoute: string := "POST /visits"

  const MissingBody: string := "missing event body"
  const MissingUserHash: string := "missing user_hash in event.body"
  const DuplicateVisitor: string := "visitor already exists"
  const RowNotUpdated: string := "total_visits row not updated"
  const UnknownError: string := "An unknown error occurred"

  const JsonHeaders: map<string, string> := map["Content-Type" := "application/json"]

  function UnsupportedRoute(routeKey: string): string
  {
    "Unsupported route: \"" + routeKey + "\""
  }

  function SuccessResponse(visits: int): Response
  {
    Response(200, ResponseBody(Some(visits), None), JsonHeaders)
  }

  function ErrorResponse(message: string): Response
  {
    Response(400, ResponseBody(None, Some(message)), JsonHeaders)
  }

  /** The shape every response has: status 200 or 400, 400 exactly when the
      body carries `error`, the body carries exactly one of `visits` and
      `error`, and the JSON content type. */
  predicate WellShaped(resp: Response)
  {
    && (resp.statusCode == 200 || resp.statusCode == 400)
    && (resp.statusCode == 400 <==> resp.body.error.Some?)
    && (resp.body.visits.Some? <==> resp.body.error.None?)
    && resp.headers == JsonHeaders
  }

  /** The message the catch block puts in the body. */
  function ErrorMessage(thrown: Thrown): string
  {
    match thrown
    case ErrorObject(m) => m
    case NonError => UnknownError
  }

  /** The validation of a POST: a missing or empty body is refused before
      anything is decoded, a decoding failure propagates, and a falsy
      `user_hash` (`None` or the empty string) is refused. A hash that gets through
      is non-empty and is exactly what decoding produced. None of this reads
      the table. */
  function ReadUserHash(body: Option<string>, decode: Decoder): (r: Outcome<string>)
    ensures body.None? || body == Some("") ==> r == Threw(ErrorObject(MissingBody))
    ensures body.Some? && body.value != "" && decode(body.value).Threw? ==>
              r == Threw(decode(body.value).thrown)
    ensures body.Some? && body.value != "" && decode(body.value) in {Returned(None), Returned(Some(""))} ==>
              r == Threw(ErrorObject(MissingUserHash))
    ensures r.Returned? <==>
              body.Some? && body.value != "" && decode(body.value).Returned?
              && decode(body.value).value.Some? && decode(body.value).value.value != ""
    ensures r.Returned? ==> decode(body.value) == Returned(Some(r.value))
  {
    if body.None? || body.value == "" then Threw(ErrorObject(MissingBody))
    else
      match decode(body.value)
      case Threw(t) => Threw(t)
      case Returned(userHash) =>
        if userHash.None? || userHash.value == "" then Threw(ErrorObject(MissingUserHash))
        else Returned(userHash.value)
  }

  /** The visit table, updated in place by the handler. */
  class VisitTable {
    var items: Table

    /** The running total equals the number of recorded visitor hashes. */
    ghost predicate Valid()
      reads this
    {
      Consistent(items)
    }

    /** An empty table. */
    constructor ()
      ensures items == map[] && Valid()
    {
      items := map[];
    }

    /** Records `userHash` for the month of `date` and bumps the running
        total: first the list append on the month's row, then the increment
        on the `total_visits` row, whose new value is returned; a falsy new
        value throws. On a consistent table the throw cannot happen. */
    method InsertUserHash(date: CalendarDate, userHash: string) returns (r: Outcome<int>)
      modifies this
      ensures items == RecordVisit(old(items), MonthYearKey(date), userHash)
      ensures r == if Counter(old(items)) + 1 != 0 then Returned(Counter(old(items)) + 1)
                   else Threw(ErrorObject(RowNotUpdated))
      ensures old(Valid()) ==> Valid() && r == Returned(Counter(old(items)) + 1)
    {
      ghost var before := items;
      var key := MonthYearKey(date);
      items := AppendUserHash(items, key, userHash);
      items := IncrementVisits(items);
      // ReturnValues: UPDATED_NEW hands back the new `visits` attribute.
      var updatedVisits := items[TotalVisitsKey].visits;
      if updatedVisits.None? || updatedVisits.value == 0 {
        r := Threw(ErrorObject(RowNotUpdated));
      } else {
        r := Returned(updatedVisits.value);
      }
      if Consistent(before) {
        RecordVisitKeepsConsistent(before, date, userHash);
      }
    }

    /** One request. The route selects the operation; every error raised on
        the way becomes a 400 response carrying its message, and only an
        accepted new visitor changes the table. */
    method Handle(event: Event, decode: Decoder, date: CalendarDate) returns (resp: Response)
      modifies this
      ensures WellShaped(resp)
      ensures event.routeKey == GetRoute ==>
                items == old(items) && resp == SuccessResponse(GetTotalVisitCount(old(items)))
      ensures event.routeKey != GetRoute && event.routeKey != PostRoute ==>
                items == old(items) && resp == ErrorResponse(UnsupportedRoute(event.routeKey))
      ensures event.routeKey == PostRoute ==>
                match ReadUserHash(event.body, decode)
                case Threw(t) =>
                  items == old(items) && resp == ErrorResponse(ErrorMessage(t))
                case Returned(userHash) =>
                  if CheckDuplicateVisit(old(items), date, userHash) then
                    items == old(items) && resp == ErrorResponse(DuplicateVisitor)
                  else
                    && items == RecordVisit(old(items), MonthYearKey(date), userHash)
                    && resp == (if Counter(old(items)) + 1 != 0 then SuccessResponse(Counter(old(items)) + 1)
                                else ErrorResponse(RowNotUpdated))
                    && (old(Valid()) ==> resp == SuccessResponse(Counter(old(items)) + 1))
      ensures old(Valid()) ==> Valid()
    {
      var body := ResponseBody(None, None);
      var statusCode := 200;
      var thrown: Option<Thrown> := None;
      if event.routeKey == GetRoute {
        body := body.(visits := Some(GetTotalVisitCount(items)));
      } else if event.routeKey == PostRoute {
        var userHash := ReadUserHash(event.body, decode);
        if userHash.Threw? {
          thrown := Some(userHash.thrown);
        } else if CheckDuplicateVisit(items, date, userHash.value) {
          thrown := Some(ErrorObject(DuplicateVisitor));
        } else {
          var inserted := InsertUserHash(date, userHash.value);
          match inserted
          case Returned(visits) =>
            body := body.(visits := Some(visits));
          case Threw(t) =>
            thrown := Some(t);
        }
      } else {
        thrown := Some(ErrorObject(UnsupportedRoute(event.routeKey)));
      }
      if thrown.Some? {
        statusCode := 400;
        body := body.(error := Some(ErrorMessage(thrown.value)));
      }
      resp := Response(statusCode, body, JsonHeaders);
    }
  }

  /** The request sequence of a first visitor on an empty table: recorded,
      refused as a repeat, counted once by GET, and an unknown route refused. */
  method FirstVisitorScenario()
  {
    var table := new VisitTable();
    var date := CalendarDate("Nov", "2024");
    // base64 of {"user_hash":"abc123"}
    var encoded := "eyJ1c2VyX2hhc2giOiJhYmMxMjMifQ==";
    var decode: Decoder := (raw: string) =>
      if raw == encoded then Returned(Some("abc123")) else Threw(ErrorObject("Unexpected token"));
    var post := Event(PostRoute, Some(encoded));

    assert decode(encoded) == Returned(Some("abc123"));
    assert ReadUserHash(post.body, decode) == Returned("abc123");
    assert !CheckDuplicateVisit(table.items, date, "abc123") && Counter(table.items) == 0;
    var first := table.Handle(post, decode, date);
    assert first == SuccessResponse(1);
    RecordVisitTouchesTwoRows(map[], date, "abc123");
    assert Visitors(table.items, MonthYearKey(date)) == ["abc123"];
    assert MonthYearKey(date) == "visit#Nov#2024";

    assert Counter(table.items) == 1;
    assert CheckDuplicateVisit(table.items, date, "abc123");
    var repeat := table.Handle(post, decode, date);
    assert repeat == ErrorResponse(DuplicateVisitor);
    assert Counter(table.items) == 1;

    assert GetTotalVisitCount(table.items) == 1;
    var total := table.Handle(Event(GetRoute, None), decode, date);
    assert total == SuccessResponse(1);

    var unknownRoute := "GET /unknown";
    assert unknownRoute != GetRoute && unknownRoute != PostRoute;
    var unknown := table.Handle(Event(unknownRoute, None), decode, date);
    assert unknown == ErrorResponse(UnsupportedRoute(unknownRoute));
  }
}
