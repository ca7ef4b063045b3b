/** The earlier draft `GCP/calendar.py`: a fixed US calendar, a UTC-only day
    window, a prompt that interpolates the user name, and a greeting returned
    exactly as the service sent it, with every failure of the generation path
    propagating to the caller. */
module Draft {
  import opened Wrappers
  import opened Text
  import opened Responses
  import opened Clock
  import opened Holidays
  import opened Greeting

  const DRAFT_CALENDAR: string := "en.usa#holiday@group.v.calendar.google.com"
  const DRAFT_SYSTEM: string := "You are Xlya, an intelligent and friendly assistant."

  /** `utcnow()` replaced to 00:00:00.000000 and to 23:59:59 with
      `microsecond=999`: the window stops 999 microseconds after 23:59:59,
      not at the last microsecond of the UTC day. */
  function DraftDayWindow(utcNow: Wall): (w: Window)
    ensures 0 <= w.start <= w.end < WALL_LIMIT
    ensures FieldsOf(w.start) == Fields(DayOf(utcNow), 0, 0, 0, 0)
    ensures FieldsOf(w.end) == Fields(DayOf(utcNow), 23, 59, 59, 999)
    ensures w.end - w.start == 86_399_000_999
  {
    var now := LocalMoment(utcNow, 0);
    Window(Replace(now, 0, 0, 0, 0).wall, Replace(now, 23, 59, 59, 999).wall)
  }

  /** Every instant of the last 0.999 seconds of the UTC day lies outside the
      draft's window. */
  lemma DraftWindowMissesDayEnd(utcNow: Wall)
    ensures var w := DraftDayWindow(utcNow);
      forall u | w.end < u < w.start + MICROS_PER_DAY :: SameLocalDay(u, LocalMoment(utcNow, 0)) && !InWindow(w, u)
    ensures var w := DraftDayWindow(utcNow);
      SameLocalDay(w.end + 1, LocalMoment(utcNow, 0)) && !InWindow(w, w.end + 1)
  {
    var w := DraftDayWindow(utcNow);
    assert w.start == DayOf(utcNow) * MICROS_PER_DAY;
  }

  /** The local-day window of the newer program, read at offset zero, starts
      where the draft's does and ends 999 000 microseconds later, at the last
      microsecond of the UTC day, so it covers exactly that day. */
  lemma CorrectedWindowCoversDay(utcNow: Wall)
    ensures DayWindow(LocalMoment(utcNow, 0)).Some?
    ensures var w := DayWindow(LocalMoment(utcNow, 0)).value;
      && w.start == DraftDayWindow(utcNow).start
      && w.end == DraftDayWindow(utcNow).end + 999_000
      && forall u :: InWindow(w, u) <==> DayOf(u) == DayOf(utcNow)
  {
    var m := LocalMoment(utcNow, 0);
    assert DayOf(utcNow) < DAYS_IN_RANGE;
    assert DayWindow(m).Some?;
    var w := DayWindow(m).value;
    DayWindowEnds(m);
    var d := DraftDayWindow(utcNow);
    assert w.start == DayOf(utcNow) * MICROS_PER_DAY;
    assert d.start == DayOf(utcNow) * MICROS_PER_DAY;
    assert forall u :: SameLocalDay(u, m) <==> DayOf(u) == DayOf(utcNow);
  }

  function DraftQuery(utcNow: Wall): EventQuery {
    var w := DraftDayWindow(utcNow);
    EventQuery(DRAFT_CALENDAR, w.start, w.end, true, None)
  }

  /** `get_today_holidays` of the draft: the summaries the service lists for
      the US calendar over the draft window, or `[]` on any failure. */
  function DraftHolidays(utcNow: Wall, listEvents: EventQuery -> Result<Json, Fault>): (names: seq<Json>)
    ensures names != [] ==> listEvents(DraftQuery(utcNow)).Success?
                            && ListsSummaries(listEvents(DraftQuery(utcNow)).value, names)
    ensures forall other | listEvents(DraftQuery(utcNow)).Success?
                           && ListsSummaries(listEvents(DraftQuery(utcNow)).value, other) :: names == other
    ensures listEvents(DraftQuery(utcNow)).Failure? ==> names == []
  {
    match listEvents(DraftQuery(utcNow))
    case Failure(_) => []
    case Success(response) => ItemSummaries(response).GetOr([])
  }

  const DRAFT_PLAIN_LEAD: string := "Generate a short, friendly morning greeting for "
  const DRAFT_PLAIN_CLOSE: string := " using the app Xlya."
  const DRAFT_EVENT_LEAD: string := "Today is "
  const DRAFT_EVENT_MIDDLE: string := " Generate a short, intelligent greeting for "
  const DRAFT_EVENT_CLOSE: string := " logging into Xlya. Acknowledge the event naturally."

  /** The draft prompt with no holiday: a morning greeting for the user,
      whatever the hour (the draft has no clock input at all). */
  function DraftPlainPrompt(userName: string := "User"): (p: string)
    ensures Contains(p, "morning greeting for " + userName)
    ensures Contains(p, userName)
    ensures !StartsWith(p, DRAFT_EVENT_LEAD)
  {
    var p := DRAFT_PLAIN_LEAD + userName + DRAFT_PLAIN_CLOSE;
    DraftPlainMentions(userName, p);
    DraftPlainOpening(userName, p);
    p
  }

  /** What the plain draft prompt mentions, proved about the text passed in as
      `p` so that the proof is a separate, small verification task. */
  lemma DraftPlainMentions(userName: string, p: string)
    requires p == DRAFT_PLAIN_LEAD + userName + DRAFT_PLAIN_CLOSE
    ensures Contains(p, "morning greeting for " + userName)
    ensures Contains(p, userName)
  {
    assert DRAFT_PLAIN_LEAD == "Generate a short, friendly " + "morning greeting for ";
    assert p == "Generate a short, friendly " + ("morning greeting for " + userName) + DRAFT_PLAIN_CLOSE;
    ContainsMiddle("Generate a short, friendly ", "morning greeting for " + userName, DRAFT_PLAIN_CLOSE);
    ContainsMiddle("morning greeting for ", userName, "");
    assert "morning greeting for " + userName + "" == "morning greeting for " + userName;
    ContainsTransitive(p, "morning greeting for " + userName, userName);
  }

  /** The plain draft prompt opens with 'G', so not with "Today is ". The lead
      is split into short literals because the verifier reads short literals
      character by character but not long ones. */
  lemma DraftPlainOpening(userName: string, p: string)
    requires p == DRAFT_PLAIN_LEAD + userName + DRAFT_PLAIN_CLOSE
    ensures !StartsWith(p, DRAFT_EVENT_LEAD)
  {
    assert DRAFT_PLAIN_LEAD == "Generate " + "a short, friendly " + "morning greeting for ";
    assert p[0] == "Generate "[0] != DRAFT_EVENT_LEAD[0];
  }

  /** The draft prompt with holidays: it opens with "Today is " and the joined
      names, and mentions every holiday and the user. */
  function DraftEventPrompt(names: seq<string>, userName: string := "User"): (p: string)
    ensures StartsWith(p, "Today is " + Join(", ", names) + ".")
    ensures forall i | 0 <= i < |names| :: Contains(p, names[i])
    ensures Contains(p, userName)
  {
    var joined := Join(", ", names);
    var p := DRAFT_EVENT_LEAD + joined + "." + DRAFT_EVENT_MIDDLE + userName + DRAFT_EVENT_CLOSE;
    SixParts(DRAFT_EVENT_LEAD, joined, ".", DRAFT_EVENT_MIDDLE, userName, DRAFT_EVENT_CLOSE);
    forall i | 0 <= i < |names| ensures Contains(p, names[i]) {
      JoinContainsEach(", ", names, i);
      ContainsTransitive(p, joined, names[i]);
    }
    p
  }

  /** The draft prompt: it always names the user, and it opens with
      "Today is " exactly when some holiday falls today. */
  function DraftPrompt(names: seq<string>, userName: string := "User"): (p: string)
    ensures Contains(p, userName)
    ensures StartsWith(p, DRAFT_EVENT_LEAD) <==> |names| > 0
  {
    if |names| == 0 then
      DraftPlainPrompt(userName)
    else
      var p := DraftEventPrompt(names, userName);
      var opening := "Today is " + Join(", ", names) + ".";
      assert p[..|DRAFT_EVENT_LEAD|] == opening[..|DRAFT_EVENT_LEAD|] == DRAFT_EVENT_LEAD;
      p
  }

  /** With the default user name the draft prompt names "User", and with no
      holiday it asks for a morning greeting for "User". */
  lemma DraftDefaultNamesUser(names: seq<string>)
    ensures Contains(DraftPrompt(names), "User")
    ensures names == [] ==> Contains(DraftPrompt(names), "morning greeting for User")
  {
    if names == [] {
      assert DraftPrompt(names) == DraftPlainPrompt("User");
      assert "morning greeting for " + "User" == "morning greeting for User";
    }
  }

  /** `generate_intelligent_greeting` of the draft: the first choice's content
      exactly as sent (possibly `None`, possibly several lines); nothing is
      caught, so a failed call, an empty choice list or a non-string holiday
      raises. */
  function DraftGreeting(holidays: seq<Json>, complete: ChatRequest -> Result<Reply, Fault>, userName: string := "User")
    : (r: Result<Option<string>, Fault>)
    ensures !AllStrings(holidays) ==> r.Failure?
    ensures AllStrings(holidays) ==>
      var request := ChatRequest(DRAFT_SYSTEM, DraftPrompt(Texts(holidays), userName));
      && (complete(request).Failure? ==> r == Failure(complete(request).error))
      && (complete(request).Success? && |complete(request).value.choices| == 0 ==> r.Failure?)
      && (complete(request).Success? && |complete(request).value.choices| > 0
          ==> r == Success(complete(request).value.choices[0]))
    ensures r.Success? ==> AllStrings(holidays)
  {
    if !AllStrings(holidays) then
      Failure(Fault("TypeError: sequence item is not a str"))
    else
      match complete(ChatRequest(DRAFT_SYSTEM, DraftPrompt(Texts(holidays), userName)))
      case Failure(e) => Failure(e)
      case Success(reply) =>
        if |reply.choices| == 0 then Failure(Fault("IndexError: list index out of range"))
        else Success(reply.choices[0])
  }

  /** Given a two-line reply to a Thanksgiving request, the newer program
      returns one line at any hour, while the draft passes both lines
      through. */
  lemma DraftKeepsEveryLine(now: LocalMoment, userName: string)
    ensures var complete := (q: ChatRequest) => Success(Reply([Some(THANKSGIVING_REPLY)]));
      && DraftGreeting([JString("Thanksgiving Day")], complete, userName) == Success(Some(THANKSGIVING_REPLY))
      && '\n' in THANKSGIVING_REPLY
      && '\n' !in Greet([JString("Thanksgiving Day")], now, complete)
  {
    assert AllStrings([JString("Thanksgiving Day")]);
    assert THANKSGIVING_REPLY[|THANKSGIVING_LINE|] == '\n';
  }
}
