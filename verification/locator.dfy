/** Country detection from the IP-geolocation reply, and the country-to-
    holiday-calendar table. */
module Locator {
  import opened Wrappers
  import opened Text
  import opened Responses

  const DEFAULT_COUNTRY: string := "US"

  const US_CALENDAR: string := "en.usa#holiday@group.v.calendar.google.com"
  const PK_CALENDAR: string := "en.pk#holiday@group.v.calendar.google.com"
  const IN_CALENDAR: string := "en.indian#holiday@group.v.calendar.google.com"
  const GB_CALENDAR: string := "en.uk#holiday@group.v.calendar.google.com"

  /** Public holiday calendar of each supported country. */
  const HOLIDAY_CALENDARS: map<string, string> :=
    map["US" := US_CALENDAR, "PK" := PK_CALENDAR, "IN" := IN_CALENDAR, "GB" := GB_CALENDAR]

  /** The reply is a JSON object whose `country` field is a string. */
  predicate HasCountryString(reply: Result<Json, Fault>) {
    && reply.Success?
    && reply.value.JObject?
    && "country" in reply.value.fields
    && reply.value.fields["country"].JString?
  }

  /** `get_user_country`: the reply's `country` field upper-cased, `"US"` when
      the field is missing, and `"US"` when the request or the reading of the
      reply raised (failed request, non-object body, non-string field). */
  function Country(reply: Result<Json, Fault>): (code: string)
    ensures HasCountryString(reply) ==> code == Upper(reply.value.fields["country"].s)
    ensures !HasCountryString(reply) ==> code == DEFAULT_COUNTRY
    ensures reply.Failure? ==> code == DEFAULT_COUNTRY
    ensures forall i | 0 <= i < |code| :: !IsLowerAscii(code[i])
  {
    match reply
    case Success(JObject(fields)) =>
      var field := if "country" in fields then fields["country"] else JString(DEFAULT_COUNTRY);
      // `.upper()` on anything but a string raises AttributeError
      if field.JString? then Upper(field.s) else DEFAULT_COUNTRY
    case _ => DEFAULT_COUNTRY
  }

  /** A detected country code is already upper case. */
  lemma CountryIsUpperCase(reply: Result<Json, Fault>)
    ensures Upper(Country(reply)) == Country(reply)
  {
    var c := Country(reply);
    assert forall i | 0 <= i < |c| :: UpperChar(c[i]) == c[i];
  }

  /** `COUNTRY_HOLIDAY_CALENDAR.get(country, COUNTRY_HOLIDAY_CALENDAR["US"])`. */
  function CalendarFor(country: string): (id: string)
    ensures id in HOLIDAY_CALENDARS.Values
    ensures country in HOLIDAY_CALENDARS ==> id == HOLIDAY_CALENDARS[country]
    ensures country !in HOLIDAY_CALENDARS ==> id == US_CALENDAR
  {
    if country in HOLIDAY_CALENDARS then HOLIDAY_CALENDARS[country] else HOLIDAY_CALENDARS["US"]
  }

  /** Resolution is total: each supported code gets its own calendar, and
      exactly the other codes (unsupported ones and "US") get the US one. */
  lemma CalendarResolution(country: string)
    ensures country == "US" ==> CalendarFor(country) == US_CALENDAR
    ensures country == "PK" ==> CalendarFor(country) == PK_CALENDAR
    ensures country == "IN" ==> CalendarFor(country) == IN_CALENDAR
    ensures country == "GB" ==> CalendarFor(country) == GB_CALENDAR
    ensures CalendarFor(country) == US_CALENDAR <==> country !in {"PK", "IN", "GB"}
  {
    assert PK_CALENDAR[3] != US_CALENDAR[3];
    assert IN_CALENDAR[3] != US_CALENDAR[3];
    assert GB_CALENDAR[4] != US_CALENDAR[4];
  }

  /** An unmapped code such as "ZZ", or the empty string, uses the US calendar. */
  lemma UnmappedCountriesUseUs()
    ensures CalendarFor("ZZ") == US_CALENDAR
    ensures CalendarFor("") == US_CALENDAR
  {
    CalendarResolution("ZZ");
    CalendarResolution("");
  }
}
