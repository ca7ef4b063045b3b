# Xlya login greeting, modelled in Dafny

The Xlya greeting flow produces one short greeting line when a user logs in.
`GCP/xlya_calendar.py` detects the user's country from an IP-geolocation
reply. It picks that country's public-holiday calendar and asks the calendar
service for events on the local day. It labels the local hour (Morning,
Afternoon, Evening, Night) and builds a prompt from the holiday names and the
label. It sends the prompt to a chat-completion service and cuts the reply to
its first stripped line. Each of the three service calls falls back to a fixed
value when it fails. `GCP/calendar.py` is an earlier draft of the same flow. It
uses a fixed US calendar and a UTC-only day window, and it returns the model's
reply untouched.

This project lifts the pure decisions out of that glue code:

- `wrappers.dfy`: `Option` and `Result`.
- `text.dfy`: the Python string operations the flow uses. These are
  `str.isspace` (the exact code-point list), `strip`, ASCII `upper`/`lower`,
  `sep.join`, `split` on one character, and substring search.
- `responses.dfy`: decoded JSON values, and `Fault` for a raised exception.
- `clock.dfy`: timezone-aware moments as integer microseconds plus a fixed
  UTC offset. Also `datetime.replace`, `astimezone(utc)` with its overflow
  error, the local-day window, and the time-of-day label.
- `locator.dfy`: country detection and the country-to-calendar table.
- `holidays.dfy`: reading holiday names out of the event list, and today's
  lookup.
- `greeting.dfy`: the prompt, the post-processing, the fallback greeting and
  the login-message orchestration.
- `draft.dfy`: the earlier draft in `GCP/calendar.py`.

The three services are inputs, not calls. The geolocation answer is a
`Result<Json, Fault>`. The calendar service is a function from the request
parameters (`EventQuery`) to `Result<Json, Fault>`. The chat service is a
function from `ChatRequest` (system instruction, user prompt) to
`Result<Reply, Fault>`. Reading the clock is replaced by a `LocalMoment`
argument. The newer program reads the clock twice, once for the holiday lookup
and once for the greeting, so `LoginMessage` takes two moments.

Some consequences of the code that are easy to miss:

- The greeting can be empty: an empty or all-whitespace reply gives ""
  (`Greeting.BlankReplyGivesEmptyLine`).
- Post-processing is not idempotent: whitespace before the first newline
  survives the cut (`Greeting.PostProcessNotIdempotent`).
- An unrecognised country is not rewritten to "US". Only the calendar lookup
  falls back to the US calendar; the detected code itself stays as reported,
  upper-cased (`Locator.Country`, `Locator.CalendarFor`).

## Model

| member | source | states |
|---|---|---|
| Text.Strip | GCP/xlya_calendar.py:140 | `strip()` leaves a contiguous middle of the string that neither starts nor ends with whitespace, and only whitespace is removed on either side |
| Text.StripUnique | GCP/xlya_calendar.py:140 | any trimming of a string in that sense equals `Strip`, so the contract determines `strip()` completely |
| Text.StripIdempotent | GCP/xlya_calendar.py:140 | stripping twice is the same as stripping once |
| Text.LStrip | GCP/xlya_calendar.py:140 | the result is a suffix of the input, everything removed is whitespace, and the result does not start with whitespace |
| Text.RStrip | GCP/xlya_calendar.py:140 | the result is a prefix of the input, everything removed is whitespace, and the result does not end with whitespace |
| Text.Upper | GCP/xlya_calendar.py:34 | `upper()` keeps the length and the letters up to case, leaves no lower-case ASCII letter, and changes no other character |
| Text.Lower | GCP/xlya_calendar.py:116 | `lower()` keeps the length and the letters up to case, leaves no upper-case ASCII letter, and changes no other character |
| Text.SplitOn | GCP/xlya_calendar.py:141 | `split("\n")` gives at least one piece, no piece holds the separator, and the first piece is the input up to its first separator |
| Text.JoinSplit | GCP/xlya_calendar.py:141 | joining the pieces of a split with the separator gives back the original string |
| Text.SplitJoin | GCP/xlya_calendar.py:141 | splitting separator-free pieces after joining them gives back the pieces |
| Text.FirstPiece | GCP/xlya_calendar.py:141 | `split("\n")[0]` holds no newline, is a prefix of the input, stops exactly at the first newline, and is the whole input when there is none |
| Text.JoinContainsEach | GCP/xlya_calendar.py:105 | every holiday name appears in `", ".join(holidays)` |
| Text.JoinLength | GCP/xlya_calendar.py:105 | the joined string is as long as all names plus one separator between each two |
| Locator.Country | GCP/xlya_calendar.py:29-37 | the country is the upper-cased `country` field when it is a string, and "US" when the field is missing, when the request fails or when the reply cannot be read; it holds no lower-case ASCII letter |
| Locator.CountryIsUpperCase | GCP/xlya_calendar.py:34 | upper-casing a detected country changes nothing |
| Locator.CalendarFor | GCP/xlya_calendar.py:54 | the lookup is total: a code in the table gets its own entry, and any other string gets the US calendar |
| Locator.CalendarResolution | GCP/xlya_calendar.py:17-23 | "US", "PK", "IN" and "GB" resolve to their own calendars, and a code resolves to the US calendar exactly when it is not "PK", "IN" or "GB" |
| Locator.UnmappedCountriesUseUs | GCP/xlya_calendar.py:54 | "ZZ" and the empty string resolve to the US calendar |
| Clock.Replace | GCP/xlya_calendar.py:61-62 | `replace(hour, minute, second, microsecond)` keeps the date and the offset, and the new moment has exactly the requested time fields |
| Clock.ToUtc | GCP/xlya_calendar.py:65-66 | `astimezone(utc)` shifts by the captured offset, and it fails (OverflowError) exactly when the instant leaves the `datetime` range |
| Clock.DayWindow | GCP/xlya_calendar.py:61-66 | when both ends convert, start <= end, end - start is 86 399 999 999 µs, and a UTC instant lies in the window exactly when it falls on the moment's local date |
| Clock.DayWindowEnds | GCP/xlya_calendar.py:61-62 | the window ends are local 00:00:00.000000 and 23:59:59.999999 of the moment's date |
| Clock.TimeOfDay | GCP/xlya_calendar.py:93-102 | each hour 0..23 gets exactly one label: Morning exactly for 5..11, Afternoon for 12..16, Evening for 17..20, and Night for 0..4 and 21..23 |
| Holidays.SummariesOf | GCP/xlya_calendar.py:77 | the list comprehension succeeds exactly when every event has a summary, and then yields each event's summary in event order |
| Holidays.ItemSummaries | GCP/xlya_calendar.py:76-77 | the names read from a reply are exactly the ones the declarative reading `ListsSummaries` allows: item summaries in item order, or none when `items` is absent |
| Holidays.TodayHolidays | GCP/xlya_calendar.py:51-81 | a non-empty result is what the calendar service lists for the detected country's calendar over today's local window; a failed call or an overflowing window gives [] |
| Greeting.HolidayPrompt | GCP/xlya_calendar.py:105-113 | the holiday prompt begins "Event today: " and the names joined by ", ", contains every holiday name, and contains "Start with '<Label>'" |
| Greeting.PlainPrompt | GCP/xlya_calendar.py:114-120 | the plain prompt contains the lower-cased label followed by " greeting" and never contains "Event today" |
| Greeting.Prompt | GCP/xlya_calendar.py:104-120 | the prompt mentions "Event today" if and only if at least one holiday falls today |
| Greeting.PostProcess | GCP/xlya_calendar.py:140-141 | the result is the prefix of `strip(raw)` up to its first newline: it holds no newline and does not start with whitespace; it equals `strip(raw)` when that has no newline, and it is "" for a blank reply |
| Greeting.PostProcessNotIdempotent | GCP/xlya_calendar.py:140-141 | a first line that ends in whitespace before the newline (for example "a \nb") survives one pass unchanged, and a second pass changes it |
| Greeting.BlankReplyGivesEmptyLine | GCP/xlya_calendar.py:140-141 | an all-whitespace reply yields the empty greeting |
| Greeting.PostProcessTwoLines | GCP/xlya_calendar.py:140-141 | a reply of a clean first line, a newline and more text comes back as the first line |
| Greeting.Greet | GCP/xlya_calendar.py:87-145 | the greeting is one line with no leading whitespace. It is "Have a wonderful day ahead." when a holiday name is not a string or the service call fails. Otherwise it is the post-processed first choice of the reply to the prompt for the hour's label. |
| Greeting.LoginMessage | GCP/xlya_calendar.py:151-154 | the login message is one line with no leading whitespace; it is the greeting built from exactly the holidays a successful lookup lists, and the greeting without holidays whenever the lookup lists nothing (the window overflows, the call fails or the reply cannot be read) |
| Greeting.ThanksgivingPrompt | GCP/xlya_calendar.py:104-113 | at 9 o'clock with "Thanksgiving Day", the prompt names the holiday and contains "Start with 'Morning'" |
| Greeting.ThanksgivingReplyFirstLine | GCP/xlya_calendar.py:140-141 | the two-line example reply is cut to "Morning blessings, give thanks today with loved ones near." |
| Greeting.ThanksgivingMorning | GCP/xlya_calendar.py:87-145 | end to end at 9 o'clock, the service's two-line answer comes back as its first line |
| Draft.DraftDayWindow | GCP/calendar.py:18-20 | the draft window starts at 00:00:00.000000 UTC and ends at 23:59:59 with microsecond 999 on the same day, 86 399 000 999 µs later |
| Draft.DraftWindowMissesDayEnd | GCP/calendar.py:20 | every instant after the draft window's end and before the next UTC midnight is on the same UTC day but outside the window |
| Draft.CorrectedWindowCoversDay | GCP/calendar.py:19-20 | at offset zero, the newer program's window starts where the draft's does, ends 999 000 µs later, and covers exactly the UTC day |
| Draft.DraftHolidays | GCP/calendar.py:12-34 | a non-empty result is what the service lists for the US calendar over the draft window; a failed call gives [] |
| Draft.DraftPlainPrompt | GCP/calendar.py:41 | without holidays the prompt asks for a "morning greeting for <user>" whatever the hour, names the user, and does not open with "Today is " |
| Draft.DraftEventPrompt | GCP/calendar.py:43-44 | with holidays the prompt begins "Today is " and the names joined by ", " followed by ".", and it contains every name and the user name |
| Draft.DraftPrompt | GCP/calendar.py:40-44 | the prompt always contains the user name, and it opens with "Today is " if and only if at least one holiday falls today |
| Draft.DraftDefaultNamesUser | GCP/calendar.py:36-41 | with the default user name "User" the prompt names "User", and without holidays it asks for a "morning greeting for User" |
| Draft.DraftGreeting | GCP/calendar.py:36-55 | the first choice's content is returned unmodified, possibly null. A failed call re-raises its error. An empty choice list or a non-string holiday raises. |
| Draft.DraftKeepsEveryLine | GCP/calendar.py:55 | given a two-line reply to a Thanksgiving request, the draft returns both lines, while the newer program returns one line at any hour |

## Findings

| source | as written | input that shows it | evidently intended | confidence | as-written member | corrected member |
|---|---|---|---|---|---|---|
| GCP/calendar.py:20 | the day window ends at `replace(hour=23, minute=59, second=59, microsecond=999)`, i.e. 23:59:59.000999 | any day: an event starting at 23:59:59.500000 UTC is on that UTC day but after `timeMax` | `microsecond=999999`, the last microsecond of the day, as GCP/xlya_calendar.py:62 later writes | low, not executed: public holidays are all-day events that start at midnight, so real lookups are unaffected | Draft.DraftDayWindow, Draft.DraftWindowMissesDayEnd | Clock.DayWindow, Draft.CorrectedWindowCoversDay |

## Left out

- The HTTP request to the geolocation service, the calendar client (`build`, `events().list().execute()`) and the chat client. These are network I/O. Only their results are modelled, as `Result` inputs. A failure to construct a client is folded into the failure of the call it serves.
- Reading the clock (`datetime.now().astimezone()`, `utcnow()`). The moment and its offset are inputs. No timezone database or DST rule is modelled beyond the captured fixed offset.
- ISO-8601 formatting of the window ends (`isoformat()`, the appended `'Z'`). The model passes the UTC instants as integer microseconds.
- The model name, temperature, `top_p` and token caps of the chat request. These are configuration passed to a foreign service. Only the system instruction and the user prompt are kept.
- `load_dotenv`, the API-key environment variables, the `print` diagnostics and the `__main__` entry points. These are configuration and output plumbing.
- The `user_name` argument of `generate_xlya_login_message`. It is accepted and never used, so `Greeting.LoginMessage` has no such parameter.
- Text.Upper: only ASCII letters are mapped. Python's full Unicode case mapping is not modelled, including mappings that change length such as 'ß' to "SS". Country codes from the geolocation service are two ASCII letters.
- Text.Lower: only ASCII letters are mapped; it is applied only to the four fixed label names.
- JSON numbers are integers and floats are not represented. No decision in the flow reads a number.
- Which exception the code raises is not modelled: `Fault` carries only a description. The draft model records that the code raises and, for a failed service call, passes the service's own error through.
