/** The greeting composer of `xlya_calendar.py`: time-of-day label, prompt,
    chat-completion request, post-processing of the reply and the fixed
    fallback, and the login-message orchestration. */
module Greeting {
  import opened Wrappers
  import opened Text
  import opened Responses
  import opened Clock
  import opened Holidays
  import Locator

  /** A two-message chat request: the system instruction and the user prompt. */
  datatype ChatRequest = ChatRequest(system: string, user: string)

  /** A chat-completion reply: the message content of each choice, `None`
      where the service sent `null`. */
  datatype Reply = Reply(choices: seq<Option<string>>)

  const SYSTEM_INSTRUCTION: string :=
    "You are Xlya. Respond in exactly one short line. Never add follow-up sentences."

  const FALLBACK_GREETING: string := "Have a wonderful day ahead."

  /** The text that marks a holiday prompt. */
  const EVENT_MARKER: string := "Event today"

  const WRITE_PLAIN: string := "Write ONE short, single-line "
  const GREETING_WORD: string := " greeting. "
  const PLAIN_TONE: string := "Human tone. Smooth and natural. "
  const NO_QUESTIONS: string := "No questions. No explanations. "
  const WORD_COUNT: string := "Between 6 and 12 words only."

  const HOLIDAY_LEAD: string := "Event today: "
  const HOLIDAY_STYLE: string :=
    "Write ONE short, single-line greeting. Human tone. Light rhythm if natural. No questions. No explanations. "

  const HOLIDAY_CLOSE: string := " if natural. Between 6 and 12 words only."

  /** The suggested opening word. */
  function StartWith(slot: Label): string {
    "Start with '" + slot.Name() + "'"
  }

  /** The prompt when some holiday falls today: it opens with the joined
      holiday names, suggests opening with the slot's name, and mentions every
      holiday. */
  function HolidayPrompt(names: seq<string>, slot: Label): (p: string)
    ensures StartsWith(p, "Event today: " + Join(", ", names) + ". ")
    ensures Contains(p, "Start with '" + slot.Name() + "'")
    ensures forall i | 0 <= i < |names| :: Contains(p, names[i])
  {
    var p := HOLIDAY_LEAD + Join(", ", names) + ". " + HOLIDAY_STYLE + StartWith(slot) + HOLIDAY_CLOSE;
    HolidayPromptFacts(names, slot, p);
    p
  }

  /** The prompt when no holiday falls today: it asks for a greeting of the
      lower-cased slot and never mentions an event. */
  function PlainPrompt(slot: Label): (p: string)
    ensures Contains(p, Lower(slot.Name()) + " greeting")
    ensures !Contains(p, EVENT_MARKER)
  {
    var p := WRITE_PLAIN + Lower(slot.Name()) + GREETING_WORD + PLAIN_TONE + NO_QUESTIONS + WORD_COUNT;
    PlainPromptFacts(slot, p);
    p
  }

  /** The user prompt: it mentions an event exactly when some holiday falls
      today. */
  function Prompt(names: seq<string>, slot: Label): (p: string)
    ensures Contains(p, EVENT_MARKER) <==> |names| > 0
  {
    if |names| > 0 then
      var p := HolidayPrompt(names, slot);
      LeadMentionsEvent(p, Join(", ", names) + ". ");
      p
    else
      PlainPrompt(slot)
  }

  /** A text that starts with the holiday lead mentions an event. */
  lemma LeadMentionsEvent(p: string, rest: string)
    requires StartsWith(p, "Event today: " + rest)
    ensures Contains(p, EVENT_MARKER)
  {
    assert p[..|EVENT_MARKER|] == EVENT_MARKER;
    assert OccursAt(p, EVENT_MARKER, 0);
  }

  /** Where the pieces of a six-part concatenation can be found. Both prompts
      are six-part concatenations; proving this once over arbitrary strings
      keeps the verifier from expanding the long literals inside them. */
  lemma SixParts(a: string, b: string, c: string, d: string, e: string, f: string)
    ensures StartsWith(a + b + c + d + e + f, a + b + c)
    ensures Contains(a + b + c + d + e + f, b)
    ensures Contains(a + b + c + d + e + f, e)
  {
    var p := a + b + c + d + e + f;
    assert p == (a + b + c) + (d + e + f);
    assert p[..|a + b + c|] == a + b + c;
    assert p == a + b + (c + d + e + f);
    ContainsMiddle(a, b, c + d + e + f);
    assert p == (a + b + c + d) + e + f;
    ContainsMiddle(a + b + c + d, e, f);
  }

  /** The facts `HolidayPrompt` ensures, proved about the text it builds. The
      text is passed in as `p` so that the proof stays a separate, small
      verification task instead of growing the function's own. */
  lemma HolidayPromptFacts(names: seq<string>, slot: Label, p: string)
    requires p == HOLIDAY_LEAD + Join(", ", names) + ". " + HOLIDAY_STYLE + StartWith(slot) + HOLIDAY_CLOSE
    ensures StartsWith(p, "Event today: " + Join(", ", names) + ". ")
    ensures Contains(p, "Start with '" + slot.Name() + "'")
    ensures forall i | 0 <= i < |names| :: Contains(p, names[i])
  {
    var joined := Join(", ", names);
    SixParts(HOLIDAY_LEAD, joined, ". ", HOLIDAY_STYLE, StartWith(slot), HOLIDAY_CLOSE);
    forall i | 0 <= i < |names| ensures Contains(p, names[i]) {
      JoinContainsEach(", ", names, i);
      ContainsTransitive(p, joined, names[i]);
    }
  }

  /** The facts `PlainPrompt` ensures, proved about the text it builds and
      passed in as `p`, as for `HolidayPromptFacts`. */
  lemma PlainPromptFacts(slot: Label, p: string)
    requires p == WRITE_PLAIN + Lower(slot.Name()) + GREETING_WORD + PLAIN_TONE + NO_QUESTIONS + WORD_COUNT
    ensures Contains(p, Lower(slot.Name()) + " greeting")
    ensures !Contains(p, EVENT_MARKER)
  {
    var lower := Lower(slot.Name());
    assert p == WRITE_PLAIN + (lower + " greeting") + (". " + PLAIN_TONE + NO_QUESTIONS + WORD_COUNT);
    ContainsMiddle(WRITE_PLAIN, lower + " greeting", ". " + PLAIN_TONE + NO_QUESTIONS + WORD_COUNT);
    PlainPromptHasNoEv(slot, p);
    NotContainsByPair(p, EVENT_MARKER);
  }

  /** No fragment of the plain prompt has an 'E' directly before a 'v'.
      "Event today" can only occur where "Ev" does, and looking for one
      adjacent pair fragment by fragment is far cheaper for the verifier than
      searching the whole prompt for the marker. */
  lemma PlainFragmentsHaveNoEv()
    ensures NoAdjacent(WRITE_PLAIN, 'E', 'v') && NoAdjacent(GREETING_WORD, 'E', 'v')
    ensures NoAdjacent(PLAIN_TONE, 'E', 'v')
    ensures NoAdjacent(NO_QUESTIONS, 'E', 'v') && NoAdjacent(WORD_COUNT, 'E', 'v')
  {
    assert NoAdjacent(WRITE_PLAIN, 'E', 'v');
    assert NoAdjacent(GREETING_WORD, 'E', 'v');
    assert NoAdjacent(PLAIN_TONE, 'E', 'v');
    assert NoAdjacent(NO_QUESTIONS, 'E', 'v');
    assert NoAdjacent(WORD_COUNT, 'E', 'v');
  }

  /** ... and no seam between fragments creates one. */
  lemma PlainPromptHasNoEv(slot: Label, p: string)
    requires p == WRITE_PLAIN + Lower(slot.Name()) + GREETING_WORD + PLAIN_TONE + NO_QUESTIONS + WORD_COUNT
    ensures NoAdjacent(p, 'E', 'v')
  {
    var lower := Lower(slot.Name());
    PlainFragmentsHaveNoEv();
    assert NoAdjacent(lower, 'E', 'v');
    NoAdjacentConcat(WRITE_PLAIN, lower, 'E', 'v');
    NoAdjacentConcat(WRITE_PLAIN + lower, GREETING_WORD, 'E', 'v');
    NoAdjacentConcat(WRITE_PLAIN + lower + GREETING_WORD, PLAIN_TONE, 'E', 'v');
    NoAdjacentConcat(WRITE_PLAIN + lower + GREETING_WORD + PLAIN_TONE, NO_QUESTIONS, 'E', 'v');
    NoAdjacentConcat(WRITE_PLAIN + lower + GREETING_WORD + PLAIN_TONE + NO_QUESTIONS, WORD_COUNT, 'E', 'v');
  }

  /** The reply text after `.strip()` and `.split("\n")[0]`: one line with no
      leading whitespace. Trailing whitespace before the first newline is kept,
      and an empty or all-whitespace reply gives "". */
  function PostProcess(raw: string): (line: string)
    ensures '\n' !in line
    ensures var t := Strip(raw); |line| <= |t| && line == t[..|line|]
    ensures var t := Strip(raw); |line| < |t| ==> t[|line|] == '\n'
    ensures line == [] || !IsSpace(line[0])
    ensures '\n' !in Strip(raw) ==> line == Strip(raw)
    ensures Strip(raw) == [] ==> line == []
  {
    var t := Strip(raw);
    var line := FirstPiece(t, '\n');
    assert line != [] ==> line[0] == t[0];
    line
  }

  /** Post-processing is not idempotent: a space before the newline survives
      the first pass and is stripped by the second. */
  lemma PostProcessNotIdempotent(first: string, rest: string)
    requires first != [] && !IsSpace(first[0]) && '\n' !in first && IsSpace(first[|first| - 1])
    requires rest != [] && !IsSpace(rest[|rest| - 1])
    ensures PostProcess(first + "\n" + rest) == first
    ensures PostProcess(PostProcess(first + "\n" + rest)) != first
  {
    PostProcessTwoLines(first, rest);
    var r := Strip(first);
    assert r != first by {
      assert r == [] || !IsSpace(r[|r| - 1]);
    }
  }

  /** An all-whitespace reply becomes the empty greeting. */
  lemma BlankReplyGivesEmptyLine(raw: string)
    requires forall i | 0 <= i < |raw| :: IsSpace(raw[i])
    ensures PostProcess(raw) == ""
  {
    assert TrimmedAt(raw, "", 0);
    StripUnique(raw, "");
  }

  /** Every holiday summary is a string, so `", ".join` succeeds. */
  predicate AllStrings(holidays: seq<Json>) {
    forall i | 0 <= i < |holidays| :: holidays[i].JString?
  }

  function Texts(holidays: seq<Json>): (names: seq<string>)
    requires AllStrings(holidays)
    ensures |names| == |holidays|
    ensures forall i | 0 <= i < |holidays| :: holidays[i] == JString(names[i])
  {
    seq(|holidays|, i requires 0 <= i < |holidays| => holidays[i].s)
  }

  /** The chat request for the given holidays at the hour of `now`. */
  function RequestFor(names: seq<string>, now: LocalMoment): ChatRequest {
    ChatRequest(SYSTEM_INSTRUCTION, Prompt(names, TimeOfDay(HourOf(now))))
  }

  /** The service answered `request` and its first choice carries `text`. */
  predicate AnsweredWith(complete: ChatRequest -> Result<Reply, Fault>, request: ChatRequest, text: string) {
    var reply := complete(request);
    reply.Success? && |reply.value.choices| > 0 && reply.value.choices[0] == Some(text)
  }

  /** `generate_intelligent_greeting`: the post-processed first choice of the
      service's answer to the prompt for `holidays` at the hour of `now`; any
      failure on the way gives the fixed fallback greeting. */
  function Greet(holidays: seq<Json>, now: LocalMoment, complete: ChatRequest -> Result<Reply, Fault>): (greeting: string)
    ensures '\n' !in greeting
    ensures greeting == [] || !IsSpace(greeting[0])
    ensures !AllStrings(holidays) ==> greeting == FALLBACK_GREETING
    ensures AllStrings(holidays) && complete(RequestFor(Texts(holidays), now)).Failure?
            ==> greeting == FALLBACK_GREETING
    ensures forall text | AllStrings(holidays) && AnsweredWith(complete, RequestFor(Texts(holidays), now), text)
            :: greeting == PostProcess(text)
    ensures greeting != FALLBACK_GREETING
            ==> exists text :: AllStrings(holidays) && AnsweredWith(complete, RequestFor(Texts(holidays), now), text)
  {
    if !AllStrings(holidays) then
      // `", ".join` raises TypeError on a non-string summary
      FALLBACK_GREETING
    else
      var request := RequestFor(Texts(holidays), now);
      match complete(request)
      case Failure(_) => FALLBACK_GREETING
      case Success(reply) =>
        // an empty choice list raises IndexError, a null content AttributeError
        if |reply.choices| > 0 && reply.choices[0].Some? then
          assert AnsweredWith(complete, request, reply.choices[0].value);
          PostProcess(reply.choices[0].value)
        else
          FALLBACK_GREETING
  }

  /** `generate_xlya_login_message`: today's holidays, then the greeting. The
      lookup and the greeting each read the clock, hence two moments.
      `generate_xlya_login_message` accepts a user name and never uses it, so
      it is absent here. */
  function LoginMessage(
    geo: Result<Json, Fault>,
    lookupNow: LocalMoment,
    listEvents: EventQuery -> Result<Json, Fault>,
    greetNow: LocalMoment,
    complete: ChatRequest -> Result<Reply, Fault>): (message: string)
    ensures '\n' !in message
    ensures message == [] || !IsSpace(message[0])
    ensures DayWindow(lookupNow).Some?
            && listEvents(TodayQuery(Locator.Country(geo), DayWindow(lookupNow).value)).Failure?
            ==> message == Greet([], greetNow, complete)
    ensures DayWindow(lookupNow).None? ==> message == Greet([], greetNow, complete)
    ensures (forall names :: !LookupLists(geo, lookupNow, listEvents, names))
            ==> message == Greet([], greetNow, complete)
    ensures forall names | LookupLists(geo, lookupNow, listEvents, names)
            :: message == Greet(names, greetNow, complete)
  {
    Greet(TodayHolidays(geo, lookupNow, listEvents), greetNow, complete)
  }

  /** A reply whose first line neither starts with whitespace nor holds a
      newline, followed by more text that does not end in whitespace, comes
      back as that first line. */
  lemma PostProcessTwoLines(first: string, rest: string)
    requires first != [] && !IsSpace(first[0]) && '\n' !in first
    requires rest != [] && !IsSpace(rest[|rest| - 1])
    ensures PostProcess(first + "\n" + rest) == first
  {
    var raw := first + "\n" + rest;
    assert raw[0] == first[0] && raw[|raw| - 1] == rest[|rest| - 1];
    assert TrimmedAt(raw, raw, 0);
    StripUnique(raw, raw);
    FirstPieceOfConcat(first, '\n', rest);
  }

  /** A two-line reply to a 9 o'clock Thanksgiving request. The first line is
      written as three short literals because the verifier reasons about short
      literals character by character but not about long ones. */
  const THANKSGIVING_LINE: string := "Morning blessings, " + "give thanks today " + "with loved ones near."
  const THANKSGIVING_REPLY: string := THANKSGIVING_LINE + "\n" + "Hope it's great!"

  /** The two-line reply to a 9 o'clock Thanksgiving request is cut to its
      first line. */
  lemma ThanksgivingReplyFirstLine()
    ensures PostProcess(THANKSGIVING_REPLY) == THANKSGIVING_LINE
  {
    assert forall i | 0 <= i < 19 :: "Morning blessings, "[i] != '\n';
    assert forall i | 0 <= i < 18 :: "give thanks today "[i] != '\n';
    assert forall i | 0 <= i < 21 :: "with loved ones near."[i] != '\n';
    assert "Morning blessings, "[0] == 'M' && "Hope it's great!"[15] == '!';
    PostProcessTwoLines(THANKSGIVING_LINE, "Hope it's great!");
  }

  /** A 9 o'clock request on Thanksgiving names the holiday and suggests
      opening with "Morning". */
  lemma ThanksgivingPrompt(now: LocalMoment)
    requires HourOf(now) == 9
    ensures Contains(RequestFor(["Thanksgiving Day"], now).user, "Thanksgiving Day")
    ensures Contains(RequestFor(["Thanksgiving Day"], now).user, "Start with 'Morning'")
  {
    assert TimeOfDay(HourOf(now)) == Morning;
    var names := ["Thanksgiving Day"];
    assert Prompt(names, Morning) == HolidayPrompt(names, Morning);
    assert Contains(HolidayPrompt(names, Morning), names[0]);
    assert "Start with '" + Morning.Name() + "'" == "Start with 'Morning'";
  }

  /** End to end: a 9 o'clock Thanksgiving request answered with a two-line
      reply gives that reply's first line. */
  lemma ThanksgivingMorning(now: LocalMoment)
    requires HourOf(now) == 9
    ensures var complete := (r: ChatRequest) => Success(Reply([Some(THANKSGIVING_REPLY)]));
      Greet([JString("Thanksgiving Day")], now, complete) == THANKSGIVING_LINE
  {
    var complete := (r: ChatRequest) => Success(Reply([Some(THANKSGIVING_REPLY)]));
    var holidays := [JString("Thanksgiving Day")];
    assert AllStrings(holidays);
    assert AnsweredWith(complete, RequestFor(Texts(holidays), now), THANKSGIVING_REPLY);
    ThanksgivingReplyFirstLine();
  }
}
