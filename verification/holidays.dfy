/** Reading holiday names out of the calendar service's event list, and the
    lookup of today's holidays for the detected country. */
module Holidays {
  import opened Wrappers
  import opened Responses
  import opened Clock
  import opened Locator

  /** The parameters of one `events().list(...)` request; the window ends are
      UTC instants in microseconds. */
  datatype EventQuery = EventQuery(
    calendarId: string,
    timeMin: int,
    timeMax: int,
    singleEvents: bool,
    orderBy: Option<string>)

  /** `event["summary"]` succeeds. */
  predicate HasSummary(event: Json) {
    event.JObject? && "summary" in event.fields
  }

  /** `[event["summary"] for event in events]` over a JSON array; `None` when
      some event has no summary (KeyError, TypeError). */
  function SummariesOf(events: seq<Json>): (r: Option<seq<Json>>)
    ensures r.Some? <==> forall i | 0 <= i < |events| :: HasSummary(events[i])
    ensures r.Some? ==> |r.value| == |events|
    ensures r.Some? ==> forall i | 0 <= i < |events| :: r.value[i] == events[i].fields["summary"]
    decreases |events|
  {
    if |events| == 0 then Some([])
    else if !HasSummary(events[0]) then None
    else
      match SummariesOf(events[1..])
      case None => None
      case Some(rest) => Some([events[0].fields["summary"]] + rest)
  }

  /** The comprehension over whatever `items` holds. Iterating a string or an
      object yields strings, and indexing a string with "summary" raises, so
      only an empty one gets through; other scalars are not iterable. */
  function Summaries(items: Json): Option<seq<Json>> {
    match items
    case JArray(events) => SummariesOf(events)
    case JString(s) => if |s| == 0 then Some([]) else None
    case JObject(m) => if |m| == 0 then Some([]) else None
    case _ => None
  }

  /** `events_result.get("items", [])`. */
  function ItemsOf(response: Json): Json
    requires response.JObject?
  {
    if "items" in response.fields then response.fields["items"] else JArray([])
  }

  /** Declarative reading of a reply: `names` are the summaries of the reply's
      items, one per item and in item order, or the reply has no items. */
  predicate ListsSummaries(response: Json, names: seq<Json>) {
    && response.JObject?
    && var items := ItemsOf(response);
    || (&& items.JArray?
        && |names| == |items.elems|
        && forall i | 0 <= i < |names| :: HasSummary(items.elems[i]) && names[i] == items.elems[i].fields["summary"])
    || (items == JString("") && names == [])
    || (items == JObject(map[]) && names == [])
  }

  /** The names read from a reply: `None` when reading it raises. */
  function ItemSummaries(response: Json): (r: Option<seq<Json>>)
    ensures r.Some? ==> ListsSummaries(response, r.value)
    ensures forall names | ListsSummaries(response, names) :: r == Some(names)
  {
    match response
    case JObject(_) =>
      var r := Summaries(ItemsOf(response));
      assert forall names | ListsSummaries(response, names) :: r == Some(names) by {
        forall names | ListsSummaries(response, names) ensures r == Some(names) {
          if ItemsOf(response).JArray? {
            assert r.value == names;
          }
        }
      }
      r
    case _ => None
  }

  /** The request `get_today_holidays` sends for a country and a day window. */
  function TodayQuery(country: string, w: Window): EventQuery {
    EventQuery(CalendarFor(country), w.start, w.end, true, Some("startTime"))
  }

  /** The lookup for the country in `geo` over the local day of `now` succeeds
      and its reply lists exactly `names`. */
  predicate LookupLists(
    geo: Result<Json, Fault>, now: LocalMoment, listEvents: EventQuery -> Result<Json, Fault>, names: seq<Json>)
  {
    && DayWindow(now).Some?
    && var reply := listEvents(TodayQuery(Country(geo), DayWindow(now).value));
    && reply.Success?
    && ListsSummaries(reply.value, names)
  }

  /** `get_today_holidays`: the holiday names the calendar service lists for
      the detected country over the local day, or `[]` when the window cannot
      be formed, the service call fails, or its reply cannot be read. */
  function TodayHolidays(
    geo: Result<Json, Fault>, now: LocalMoment, listEvents: EventQuery -> Result<Json, Fault>): (names: seq<Json>)
    ensures names != [] ==> LookupLists(geo, now, listEvents, names)
    ensures forall other | LookupLists(geo, now, listEvents, other) :: names == other
    ensures DayWindow(now).None? ==> names == []
    ensures DayWindow(now).Some? && listEvents(TodayQuery(Country(geo), DayWindow(now).value)).Failure?
            ==> names == []
  {
    var calendarCountry := Country(geo);
    match DayWindow(now)
    case None => []
    case Some(w) =>
      match listEvents(TodayQuery(calendarCountry, w))
      case Failure(_) => []
      case Success(response) => ItemSummaries(response).GetOr([])
  }
}
