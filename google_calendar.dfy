/** The calendar-sync library: mapping a task to a Google Calendar event,
    the reminder setting, the retrying dispatcher and the batch fan-out over
    a bounded pool of workers. Every HTTP exchange is a scripted outcome
    handed in by the caller. */
module GoogleCalendar {
  import opened Common
  import opened Text
  import opened Dates

  /** Batch constants. */
  const Concurrency: nat := 3
  const MaxRetries: nat := 6
  const BaseDelayMs: nat := 500

  function Min(a: int, b: int): int {
    if a < b then a else b
  }

  // ---------------------------------------------------------------------
  // Event mapping

  /** A task as handed to the library (`ParsedSyllabusEvent`). The category
      is a string: the task board passes its own categories through. */
  datatype ParsedEvent = ParsedEvent(title: string, kind: string, date: string, description: string)

  /** `{ date?, dateTime?, timeZone? }`. */
  datatype EventTime = EventTime(date: Option<string>, dateTime: Option<string>, timeZone: Option<string>)

  /** `{ method, minutes }`; `channel` holds `method`, a keyword in Dafny. */
  datatype Override = Override(channel: string, minutes: int)

  datatype Reminders = Reminders(useDefault: bool, overrides: Option<seq<Override>>)

  /** `GoogleCalendarInsertableEvent`. */
  datatype CalendarEvent = CalendarEvent(
    summary: string,
    description: string,
    start: EventTime,
    end: EventTime,
    reminders: Option<Reminders>)

  /** `/^\d{4}-\d{2}-\d{2}$/`: the extended calendar-date form of ISO 8601. */
  predicate IsDateOnly(s: string) {
    && |s| == 10
    && AllDigits(s[..4]) && s[4] == '-'
    && AllDigits(s[5..7]) && s[7] == '-'
    && AllDigits(s[8..])
  }

  /** The year, month and day numbers written in a date-only string. */
  function DateOf(s: string): (d: Date)
    requires IsDateOnly(s)
    ensures d.year >= 0 && d.month >= 0 && d.day >= 0
  {
    Date(DecimalValue(s[..4]), DecimalValue(s[5..7]), DecimalValue(s[8..]))
  }

  /** The first day of month `m` of year `y`, where `m` may be outside 1..12
      and carries into the year, as `Date.UTC(y, m - 1, 1)` does. */
  function MonthStart(y: int, m: int): (d: Date)
    ensures Valid(d)
  {
    Date(y + (m - 1) / 12, (m - 1) % 12 + 1, 1)
  }

  /** `Date.UTC` reads a year argument from 0 to 99 as 1900 to 1999. */
  function UtcYear(y: int): int {
    if 0 <= y <= 99 then 1900 + y else y
  }

  /** `addOneDay` as the code runs it: split, `Date.UTC(y, m - 1, d)`, which
      carries a day or month out of range into the next unit and reads a
      two-digit year as 19xx; one day later; formatted back. Calendar day
      `d` of month `m` is `d` days after the last day of the month before,
      so one day later is `d` days from the first of the month. */
  function AddOneDayAsWritten(s: string): string
    requires IsDateOnly(s)
  {
    var d := DateOf(s);
    Format(UtcDayAfter(UtcYear(d.year), d.month, d.day))
  }

  /** The date one day after `Date.UTC(y, m - 1, day)`. */
  function UtcDayAfter(y: int, m: int, day: nat): (r: Date)
    ensures Valid(r)
  {
    AddDays(MonthStart(y, m), day)
  }

  /** The evidently intended `addOneDay`: the same computation on the year
      as written. */
  function AddOneDay(s: string): string
    requires IsDateOnly(s)
  {
    var d := DateOf(s);
    Format(UtcDayAfter(d.year, d.month, d.day))
  }

  /** `d` days from the first of the month of a real date `d` is the day
      after it. */
  lemma AddDaysFromMonthStart(d: Date)
    requires Valid(d)
    ensures AddDays(MonthStart(d.year, d.month), d.day) == NextDay(d)
  {
    assert MonthStart(d.year, d.month) == Date(d.year, d.month, 1);
    AddDaysWithinMonth(d.year, d.month, d.day - 1);
  }

  /** On a date-only string naming a real date, addOneDay gives the key of
      the next calendar day. */
  lemma AddOneDayIsNextDay(s: string)
    requires IsDateOnly(s) && Valid(DateOf(s))
    ensures AddOneDay(s) == Format(NextDay(DateOf(s)))
  {
    AddDaysFromMonthStart(DateOf(s));
  }

  /** The code as written agrees with the intended function from year 100 on. */
  lemma AddOneDayAsWrittenFromYear100(s: string)
    requires IsDateOnly(s) && DateOf(s).year >= 100
    ensures AddOneDayAsWritten(s) == AddOneDay(s)
  {
  }

  /** A real date of year 1 to 99 is also a real date 1900 years later;
      of year 0 every date but 29 February is. */
  lemma ShiftedValid(d: Date)
    requires Valid(d) && 0 <= d.year <= 99 && !(d.year == 0 && d.month == 2 && d.day == 29)
    ensures Valid(Date(1900 + d.year, d.month, d.day))
  {
    if d.month == 2 && d.day == 29 {
      assert d.year % 4 == 0 && d.year != 0;
      assert (1900 + d.year) % 4 == 0 && (1900 + d.year) % 100 == d.year;
    }
  }

  /** Read with `Date.UTC`'s year rule, a real date of year 0 to 99 moves
      to 1900-1999: one day after it is one day after the same date 1900
      years later, or 1900-03-02 for 0000-02-29, which 1900 lacks. */
  lemma UtcDayAfterTwoDigitYear(d: Date)
    requires Valid(d) && 0 <= d.year <= 99
    ensures UtcDayAfter(UtcYear(d.year), d.month, d.day).year >= 1900
    ensures Valid(Date(1900 + d.year, d.month, d.day)) ==>
      UtcDayAfter(UtcYear(d.year), d.month, d.day) == NextDay(Date(1900 + d.year, d.month, d.day))
  {
    if d.year == 0 && d.month == 2 && d.day == 29 {
      var y := UtcYear(d.year);
      assert y == 1900 && !IsLeapYear(y) && MonthStart(y, d.month) == Date(y, 2, 1);
      NoLeapDay(y);
    } else {
      ShiftedDayAfter(d);
    }
  }

  /** In a year without 29 February, 29 days from the first of February
      land on 2 March. */
  lemma NoLeapDay(y: int)
    requires !IsLeapYear(y)
    ensures AddDays(Date(y, 2, 1), 29) == Date(y, 3, 2)
    ensures !Valid(Date(y, 2, 29))
  {
    var start, k: nat := Date(y, 2, 1), 27;
    AddDaysWithinMonth(y, 2, k);
    assert AddDays(start, k + 2) == NextDay(NextDay(AddDays(start, k)));
  }

  /** Any other real date of year 0 to 99: the day after the same date 1900
      years later. */
  lemma ShiftedDayAfter(d: Date)
    requires Valid(d) && 0 <= d.year <= 99 && !(d.year == 0 && d.month == 2 && d.day == 29)
    ensures Valid(Date(1900 + d.year, d.month, d.day))
    ensures UtcDayAfter(UtcYear(d.year), d.month, d.day) == NextDay(Date(1900 + d.year, d.month, d.day))
  {
    ShiftedValid(d);
    AddDaysFromMonthStart(Date(1900 + d.year, d.month, d.day));
  }

  /** For a year from 0000 to 0099 the code as written does not give the
      next day: it gives the day after the same date in 1900-1999. */
  lemma AddOneDayAsWrittenTwoDigitYear(s: string)
    requires IsDateOnly(s) && Valid(DateOf(s)) && DateOf(s).year <= 99
    ensures AddOneDayAsWritten(s) != Format(NextDay(DateOf(s)))
    ensures var d := DateOf(s); var shifted := Date(1900 + d.year, d.month, d.day);
      Valid(shifted) ==> AddOneDayAsWritten(s) == Format(NextDay(shifted))
  {
    var d := DateOf(s);
    UtcDayAfterTwoDigitYear(d);
    NotSameKey(UtcDayAfter(UtcYear(d.year), d.month, d.day), NextDay(d));
  }

  lemma NotSameKey(a: Date, b: Date)
    requires Valid(a) && Valid(b) && a.year >= 1900 && b.year <= 100
    ensures Format(a) != Format(b)
  {
    if Format(a) == Format(b) {
      FormatInjective(a, b);
    }
  }

  /** A day key of a four-digit year is date-only and names that date. */
  lemma DateOfFormat(d: Date)
    requires Valid(d) && 1000 <= d.year <= 9999
    ensures IsDateOnly(Format(d)) && DateOf(Format(d)) == d
  {
    FormatFourDigitYear(d);
    DecimalValueOfNatToString(d.year);
    Pad2Digits(d.month);
    Pad2Digits(d.day);
  }

  /** The summary line `<CATEGORY>: <title>`. */
  function Summary(kind: string, title: string): string {
    ToUpper(kind) + ": " + title
  }

  /** Reads the category and title back from a summary of one of the three
      syllabus categories. */
  function ParseSummary(summary: string): Option<(string, string)> {
    if StartsWith(summary, "QUIZ: ") then Some(("quiz", summary[6..]))
    else if StartsWith(summary, "ASSIGNMENT: ") then Some(("assignment", summary[12..]))
    else if StartsWith(summary, "EXAM: ") then Some(("exam", summary[6..]))
    else None
  }

  /** Every synced quiz, assignment or exam can be told apart by its summary:
      category and title are recovered from it. */
  lemma SummaryRoundTrip(kind: string, title: string)
    requires kind in {"quiz", "assignment", "exam"}
    ensures ParseSummary(Summary(kind, title)) == Some((kind, title))
  {
    var s := Summary(kind, title);
    if kind == "quiz" {
      assert ToUpper(kind) == "QUIZ";
      assert s[..6] == "QUIZ: " && s[6..] == title;
    } else if kind == "assignment" {
      assert ToUpper(kind) == "ASSIGNMENT";
      assert s[..6][0] != "QUIZ: "[0];
      assert s[..12] == "ASSIGNMENT: " && s[12..] == title;
    } else {
      assert ToUpper(kind) == "EXAM";
      assert s[..6][0] != "QUIZ: "[0];
      assert !StartsWith(s, "ASSIGNMENT: ") by {
        if |s| >= 12 {
          assert s[..12][0] != "ASSIGNMENT: "[0];
        }
      }
      assert s[..6] == "EXAM: " && s[6..] == title;
    }
  }

  /** `mapParsedEventToGoogle`: the summary and description of the task and
      no reminders; a due day becomes an all-day event ending on the next
      calendar day, any other due value a timed event of no length. */
  function MapEvent(e: ParsedEvent, timeZone: string): (r: CalendarEvent)
    ensures r.summary == Summary(e.kind, e.title) && r.description == e.description && r.reminders.None?
    ensures IsDateOnly(e.date) ==>
      && r.start == EventTime(Some(e.date), None, None)
      && r.end.date.Some? && r.end.dateTime.None? && r.end.timeZone.None?
    ensures IsDateOnly(e.date) && Valid(DateOf(e.date)) ==>
      r.end == EventTime(Some(Format(NextDay(DateOf(e.date)))), None, None)
    ensures !IsDateOnly(e.date) ==> r.start == r.end == EventTime(None, Some(e.date), Some(timeZone))
  {
    var summary := Summary(e.kind, e.title);
    if IsDateOnly(e.date) then
      assert Valid(DateOf(e.date)) ==> AddOneDay(e.date) == Format(NextDay(DateOf(e.date))) by {
        if Valid(DateOf(e.date)) {
          AddOneDayIsNextDay(e.date);
        }
      }
      CalendarEvent(summary, e.description,
        EventTime(Some(e.date), None, None),
        EventTime(Some(AddOneDay(e.date)), None, None),
        None)
    else
      CalendarEvent(summary, e.description,
        EventTime(None, Some(e.date), Some(timeZone)),
        EventTime(None, Some(e.date), Some(timeZone)),
        None)
  }

  /** A task due on a day becomes an all-day event from that day to the next,
      with no time zone. */
  lemma MapEventAllDay(e: ParsedEvent, timeZone: string, d: Date)
    requires Valid(d) && 1000 <= d.year <= 9999 && e.date == Format(d)
    ensures var r := MapEvent(e, timeZone);
      && r.summary == Summary(e.kind, e.title)
      && r.start == EventTime(Some(Format(d)), None, None)
      && r.end == EventTime(Some(Format(NextDay(d))), None, None)
  {
    DateOfFormat(d);
    AddOneDayIsNextDay(e.date);
  }

  /** Any other due value becomes a zero-length timed event in the given time
      zone. */
  lemma MapEventTimed(e: ParsedEvent, timeZone: string)
    requires !IsDateOnly(e.date)
    ensures var r := MapEvent(e, timeZone);
      && r.start == r.end
      && r.start.dateTime == Some(e.date) && r.start.timeZone == Some(timeZone)
      && r.start.date.None?
  {
  }

  // ---------------------------------------------------------------------
  // Reminders

  /** `reminderMinutes?: number | null`: left out, `null`, or a number. */
  datatype ReminderSetting = ServiceDefault | NoReminder | MinutesBefore(minutes: int)

  /** The reminder step of the batch's `map`. */
  function WithReminder(base: CalendarEvent, setting: ReminderSetting): (r: CalendarEvent)
    ensures r.(reminders := base.reminders) == base
  {
    match setting
    case ServiceDefault => base
    case NoReminder => base.(reminders := Some(Reminders(false, None)))
    case MinutesBefore(n) => base.(reminders := Some(Reminders(false, Some([Override("popup", n)]))))
  }

  /** The tri-state is kept: the three settings give three different payloads,
      and a number gives exactly one popup override of that many minutes. */
  lemma ReminderTriState(e: ParsedEvent, timeZone: string, s1: ReminderSetting, s2: ReminderSetting)
    ensures WithReminder(MapEvent(e, timeZone), s1) == WithReminder(MapEvent(e, timeZone), s2) ==> s1 == s2
    ensures s1.ServiceDefault? ==> WithReminder(MapEvent(e, timeZone), s1).reminders.None?
    ensures s1.NoReminder? ==> WithReminder(MapEvent(e, timeZone), s1).reminders == Some(Reminders(false, None))
    ensures s1.MinutesBefore? ==> match WithReminder(MapEvent(e, timeZone), s1).reminders
      case Some(Reminders(useDefault, Some(overrides))) =>
        !useDefault && |overrides| == 1 && overrides[0] == Override("popup", s1.minutes)
      case _ => false
  {
  }

  /** `events.map(...)` at the start of the batch. */
  function MapAll(events: seq<ParsedEvent>, timeZone: string, setting: ReminderSetting): (r: seq<CalendarEvent>)
    ensures |r| == |events|
    ensures forall i :: 0 <= i < |events| ==> r[i] == WithReminder(MapEvent(events[i], timeZone), setting)
  {
    seq(|events|, i requires 0 <= i < |events| => WithReminder(MapEvent(events[i], timeZone), setting))
  }

  // ---------------------------------------------------------------------
  // Retrying dispatcher

  /** The part of a parsed error body the classifier reads:
      `error?.errors?.[0]?.reason`. */
  datatype ErrorEntry = ErrorEntry(reason: Option<string>)
  datatype ErrorObject = ErrorObject(errors: Option<seq<ErrorEntry>>)
  datatype ErrorPayload = ErrorPayload(error: Option<ErrorObject>)

  /** A response: its status, its body text (`""` when reading it fails) and
      what `JSON.parse` makes of that text (`None` when it throws). */
  datatype Response = Response(status: int, text: string, parsed: Option<ErrorPayload>)

  /** `res.ok`. */
  predicate IsOk(res: Response) {
    200 <= res.status <= 299
  }

  function FirstReason(p: ErrorPayload): Option<string> {
    match p.error
    case None => None
    case Some(obj) =>
      match obj.errors
      case None => None
      case Some(entries) => if |entries| == 0 then None else entries[0].reason
  }

  /** `isRateLimitError`. */
  predicate IsRateLimitError(parsed: Option<ErrorPayload>) {
    match parsed
    case None => false
    case Some(p) => FirstReason(p) == Some("rateLimitExceeded") || FirstReason(p) == Some("userRateLimitExceeded")
  }

  /** The rate-limit test holds exactly when the body parses and its first
      error reason is one of the two rate-limit reasons. */
  lemma RateLimitReasons(parsed: Option<ErrorPayload>)
    ensures IsRateLimitError(parsed) <==>
      exists reason :: reason in {"rateLimitExceeded", "userRateLimitExceeded"} &&
        parsed.Some? && parsed.value.error.Some? && parsed.value.error.value.errors.Some? &&
        |parsed.value.error.value.errors.value| > 0 &&
        parsed.value.error.value.errors.value[0].reason == Some(reason)
  {
    if IsRateLimitError(parsed) {
      var reason := FirstReason(parsed.value).value;
      assert reason in {"rateLimitExceeded", "userRateLimitExceeded"};
    }
  }

  /** The retry classification: 429, 403 with a rate-limit reason, any 5xx. */
  predicate IsRetryable(res: Response) {
    res.status == 429 || (res.status == 403 && IsRateLimitError(res.parsed)) || res.status >= 500
  }

  function InsertFailedMessage(res: Response): string {
    "Google Calendar insert failed (" + IntToString(res.status) + "): " + res.text
  }

  /** One call of `fetch`: it rejects (network failure) or yields a response. */
  datatype FetchStep = Rejected(message: string) | Received(res: Response)

  /** What `fetchWithRetry` settles to: the ok response, or the message of
      the error it throws. */
  datatype FetchOutcome = Succeeded(res: Response) | Failed(message: string)

  datatype RetryRun = RetryRun(outcome: FetchOutcome, sleeps: nat)

  /** The retry loop from `attempt` on, ending with its outcome and the value
      `attempt` has reached, which is the number of backoff sleeps taken. */
  function RetrySpec(script: seq<FetchStep>, attempt: nat, maxRetries: nat): (r: RetryRun)
    requires attempt <= maxRetries < |script|
    ensures attempt <= r.sleeps <= maxRetries
    decreases maxRetries - attempt
  {
    match script[attempt]
    case Rejected(m) => RetryRun(Failed(m), attempt)
    case Received(res) =>
      if IsOk(res) then RetryRun(Succeeded(res), attempt)
      else if !IsRetryable(res) || attempt >= maxRetries then RetryRun(Failed(InsertFailedMessage(res)), attempt)
      else RetrySpec(script, attempt + 1, maxRetries)
  }

  /** Whether the fetch at position `k` of the script ends the loop, and how. */
  predicate Stops(step: FetchStep, k: nat, maxRetries: nat) {
    match step
    case Rejected(_) => true
    case Received(res) => IsOk(res) || !IsRetryable(res) || k >= maxRetries
  }

  function StopOutcome(step: FetchStep): FetchOutcome {
    match step
    case Rejected(m) => Failed(m)
    case Received(res) => if IsOk(res) then Succeeded(res) else Failed(InsertFailedMessage(res))
  }

  /** The shape of every run: after `k` sleeps the loop stopped at fetch `k`;
      every earlier fetch was a retryable failure; the outcome is decided by
      fetch `k` alone (an ok response is returned as is, any other failure
      carries its status and body verbatim). */
  lemma {:induction false} RetryShape(script: seq<FetchStep>, attempt: nat, maxRetries: nat)
    requires attempt <= maxRetries < |script|
    ensures var r := RetrySpec(script, attempt, maxRetries);
      && Stops(script[r.sleeps], r.sleeps, maxRetries)
      && r.outcome == StopOutcome(script[r.sleeps])
      && (forall j :: attempt <= j < r.sleeps ==>
            script[j].Received? && !IsOk(script[j].res) && IsRetryable(script[j].res))
    decreases maxRetries - attempt
  {
    match script[attempt]
    case Rejected(_) =>
    case Received(res) =>
      if !(IsOk(res) || !IsRetryable(res) || attempt >= maxRetries) {
        RetryShape(script, attempt + 1, maxRetries);
      }
  }

  /** A budget spent on retryable failures: exactly `maxRetries` sleeps, then
      the last response's status and body in the error. */
  lemma {:induction false} RetryExhausted(script: seq<FetchStep>, attempt: nat, maxRetries: nat)
    requires attempt <= maxRetries < |script|
    requires forall j :: attempt <= j <= maxRetries ==>
      script[j].Received? && !IsOk(script[j].res) && IsRetryable(script[j].res)
    ensures RetrySpec(script, attempt, maxRetries) ==
      RetryRun(Failed(InsertFailedMessage(script[maxRetries].res)), maxRetries)
    decreases maxRetries - attempt
  {
    if attempt < maxRetries {
      RetryExhausted(script, attempt + 1, maxRetries);
    }
  }

  /** An ok first response is returned after one fetch and no sleep. */
  lemma FirstOk(script: seq<FetchStep>, maxRetries: nat)
    requires maxRetries < |script| && script[0].Received? && IsOk(script[0].res)
    ensures RetrySpec(script, 0, maxRetries) == RetryRun(Succeeded(script[0].res), 0)
  {
  }

  /** Two rate-limited responses and then an ok one: two sleeps, success. */
  lemma TwoRateLimitsThenOk(script: seq<FetchStep>, maxRetries: nat)
    requires 2 <= maxRetries < |script|
    requires script[0].Received? && script[0].res.status == 429
    requires script[1].Received? && script[1].res.status == 429
    requires script[2].Received? && IsOk(script[2].res)
    ensures RetrySpec(script, 0, maxRetries) == RetryRun(Succeeded(script[2].res), 2)
  {
    assert RetrySpec(script, 0, maxRetries) == RetrySpec(script, 1, maxRetries);
    assert RetrySpec(script, 1, maxRetries) == RetrySpec(script, 2, maxRetries);
  }

  function Iota(n: nat): (r: seq<nat>)
    ensures |r| == n && forall i :: 0 <= i < n ==> r[i] == i
  {
    seq(n, i requires 0 <= i < n => i)
  }

  /** `fetchWithRetry` over a scripted sequence of fetch results (the script
      holds one result per fetch the budget allows). Returns the outcome,
      the exponent of each backoff delay in order and the number of fetches. */
  method FetchWithRetry(script: seq<FetchStep>, maxRetries: nat)
    returns (outcome: FetchOutcome, backoffs: seq<nat>, fetches: nat)
    requires maxRetries < |script|
    ensures RetryRun(outcome, |backoffs|) == RetrySpec(script, 0, maxRetries)
    ensures backoffs == Iota(|backoffs|) && |backoffs| <= maxRetries
    ensures fetches == |backoffs| + 1
  {
    var attempt: nat := 0;
    backoffs := [];
    fetches := 0;
    while true
      invariant attempt <= maxRetries
      invariant RetrySpec(script, attempt, maxRetries) == RetrySpec(script, 0, maxRetries)
      invariant backoffs == Iota(attempt) && fetches == attempt
      decreases maxRetries - attempt
    {
      var step := script[attempt];
      fetches := fetches + 1;
      match step {
        case Rejected(m) =>
          outcome := Failed(m);
          return;
        case Received(res) =>
          if IsOk(res) {
            outcome := Succeeded(res);
            return;
          }
          var retryable := IsRetryable(res);
          if !retryable || attempt >= maxRetries {
            outcome := Failed(InsertFailedMessage(res));
            return;
          }
          // sleep(round(BaseDelayMs * 2^attempt * jitter))
          backoffs := backoffs + [attempt];
          attempt := attempt + 1;
      }
    }
  }

  // ---------------------------------------------------------------------
  // Batch fan-out

  predicate ScriptsFit(scripts: seq<seq<FetchStep>>) {
    forall i :: 0 <= i < |scripts| ==> |scripts[i]| > MaxRetries
  }

  /** How the dispatcher ends for one item of the batch. */
  function ItemOutcome(script: seq<FetchStep>): FetchOutcome
    requires |script| > MaxRetries
  {
    RetrySpec(script, 0, MaxRetries).outcome
  }

  /** How each item of the batch ends, in item order. */
  function Outcomes(scripts: seq<seq<FetchStep>>): (r: seq<FetchOutcome>)
    requires ScriptsFit(scripts)
    ensures |r| == |scripts| && forall i :: 0 <= i < |scripts| ==> r[i] == ItemOutcome(scripts[i])
  {
    seq(|scripts|, i requires 0 <= i < |scripts| => ItemOutcome(scripts[i]))
  }

  /** The result slots and the first error after the cursor has handed out
      the indices below `cursor`: a slot holds its item's response once the
      item succeeded, and the error is that of a handed-out item, present
      exactly when one of them failed. */
  ghost predicate PoolInv(outs: seq<FetchOutcome>, rs: seq<Option<Response>>, cursor: nat, failure: Option<string>, failedIndex: nat) {
    && |rs| == |outs|
    && (forall i :: 0 <= i < |outs| ==>
          rs[i] == if i < cursor && outs[i].Succeeded? then Some(outs[i].res) else None)
    && (failure.None? <==> forall i :: 0 <= i < Min(cursor, |outs|) ==> outs[i].Succeeded?)
    && (failure.Some? ==> failedIndex < Min(cursor, |outs|) && outs[failedIndex] == Failed(failure.value))
  }

  /** Handing out index `cursor` and recording how it ended keeps the slots
      and the first error right; an error is kept once there is one. */
  lemma PoolInvStep(outs: seq<FetchOutcome>, rs: seq<Option<Response>>, cursor: nat, failure: Option<string>, failedIndex: nat)
    requires PoolInv(outs, rs, cursor, failure, failedIndex) && cursor < |outs|
    ensures var o := outs[cursor];
      var first := failure.None? && o.Failed?;
      PoolInv(outs, if o.Succeeded? then rs[cursor := Some(o.res)] else rs, cursor + 1,
              if first then Some(o.message) else failure, if first then cursor else failedIndex)
  {
  }

  /** Advancing the cursor past the end changes nothing that is recorded. */
  lemma PoolInvPastEnd(outs: seq<FetchOutcome>, rs: seq<Option<Response>>, cursor: nat, failure: Option<string>, failedIndex: nat)
    requires PoolInv(outs, rs, cursor, failure, failedIndex) && cursor >= |outs|
    ensures PoolInv(outs, rs, cursor + 1, failure, failedIndex)
  {
  }

  datatype WorkerState = Running | Exited | Crashed

  /** The pool's invariant over its values: the cursor has handed out the
      indices below it in order and the payloads posted are the mapped
      events at those indices; the slots and the first error agree with the
      outcomes; a worker has returned only once the cursor is past the end,
      and has thrown only when there is an error. */
  ghost predicate PoolOk(
    mapped: seq<CalendarEvent>, outs: seq<FetchOutcome>, st: seq<WorkerState>, rs: seq<Option<Response>>,
    cursor: nat, failure: Option<string>, failedIndex: nat, dispatched: seq<nat>, sent: seq<CalendarEvent>)
  {
    && |outs| == |mapped| && |st| == Min(Concurrency, |mapped|)
    && dispatched == Iota(Min(cursor, |mapped|))
    && |sent| == |dispatched|
    && (forall k :: 0 <= k < |sent| ==> sent[k] == mapped[k])
    && PoolInv(outs, rs, cursor, failure, failedIndex)
    && (forall w :: 0 <= w < |st| && st[w] == Exited ==> cursor >= |mapped|)
    && (forall w :: 0 <= w < |st| && st[w] == Crashed ==> failure.Some?)
  }

  /** A worker that finds the cursor past the end returns, and the pool
      stays consistent. */
  lemma PoolOkExit(
    mapped: seq<CalendarEvent>, outs: seq<FetchOutcome>, st: seq<WorkerState>, rs: seq<Option<Response>>,
    cursor: nat, failure: Option<string>, failedIndex: nat, dispatched: seq<nat>, sent: seq<CalendarEvent>, w: nat)
    requires PoolOk(mapped, outs, st, rs, cursor, failure, failedIndex, dispatched, sent)
    requires w < |st| && cursor >= |mapped|
    ensures PoolOk(mapped, outs, st[w := Exited], rs, cursor + 1, failure, failedIndex, dispatched, sent)
  {
    PoolInvPastEnd(outs, rs, cursor, failure, failedIndex);
  }

  /** A worker that takes index `cursor` posts its event, then writes its
      slot or throws, and the pool stays consistent. */
  lemma PoolOkAdvance(
    mapped: seq<CalendarEvent>, outs: seq<FetchOutcome>, st: seq<WorkerState>, rs: seq<Option<Response>>,
    cursor: nat, failure: Option<string>, failedIndex: nat, dispatched: seq<nat>, sent: seq<CalendarEvent>, w: nat)
    requires PoolOk(mapped, outs, st, rs, cursor, failure, failedIndex, dispatched, sent)
    requires w < |st| && cursor < |mapped|
    ensures var o := outs[cursor];
      var first := failure.None? && o.Failed?;
      PoolOk(mapped, outs, st[w := if o.Succeeded? then Running else Crashed],
             if o.Succeeded? then rs[cursor := Some(o.res)] else rs, cursor + 1,
             if first then Some(o.message) else failure, if first then cursor else failedIndex,
             dispatched + [cursor], sent + [mapped[cursor]])
  {
    PoolInvStep(outs, rs, cursor, failure, failedIndex);
    assert Iota(cursor) + [cursor] == Iota(cursor + 1);
  }

  /** The state shared by the workers of one batch: the mapped events, the
      cursor, the result slots and, per worker, whether it still runs, has
      returned, or has thrown. `dispatched` lists the indices handed out, in
      order, and `sent` the payloads posted for them. */
  class WorkerPool {
    const mapped: seq<CalendarEvent>
    const scripts: seq<seq<FetchStep>>
    /** How each item ends once dispatched. */
    ghost const outcomes: seq<FetchOutcome>
    const workers: nat
    const results: array<Option<Response>>
    const state: array<WorkerState>
    var cursor: nat
    var failure: Option<string>
    ghost var failedIndex: nat
    var dispatched: seq<nat>
    var sent: seq<CalendarEvent>

    ghost predicate Valid()
      reads this, results, state
    {
      && |scripts| == |mapped| && ScriptsFit(scripts) && outcomes == Outcomes(scripts)
      && results.Length == |mapped| && state.Length == workers
      && workers == Min(Concurrency, |mapped|)
      && PoolOk(mapped, outcomes, state[..], results[..], cursor, failure, failedIndex, dispatched, sent)
    }

    /** `Array.from({ length: Math.min(concurrency, mapped.length) }, worker)`
        with the cursor at 0 and no slot written. */
    constructor (mapped: seq<CalendarEvent>, scripts: seq<seq<FetchStep>>)
      requires |scripts| == |mapped| && ScriptsFit(scripts)
      ensures Valid() && fresh(results) && fresh(state)
      ensures this.mapped == mapped && this.scripts == scripts
      ensures cursor == 0 && failure.None? && dispatched == [] && sent == []
      ensures forall w :: 0 <= w < workers ==> state[w] == Running
    {
      this.mapped := mapped;
      this.scripts := scripts;
      outcomes := Outcomes(scripts);
      workers := Min(Concurrency, |mapped|);
      results := new Option<Response>[|mapped|](_ => None);
      state := new WorkerState[Min(Concurrency, |mapped|)](_ => Running);
      cursor := 0;
      failure := None;
      failedIndex := 0;
      dispatched := [];
      sent := [];
    }

    /** One pass of worker `w`'s loop: take the cursor's index and advance
        it; past the end, return; otherwise post `mapped[i]` through the
        dispatcher and write `results[i]`, or throw its error. The first error
        thrown is the one `Promise.all` rejects with. */
    method Resume(w: nat)
      requires Valid() && w < workers && state[w] == Running
      modifies this, results, state
      ensures Valid()
      ensures cursor == old(cursor) + 1
      ensures old(cursor) >= |mapped| ==> state[w] == Exited
      ensures old(cursor) < |mapped| ==>
        state[w] == (if outcomes[old(cursor)].Succeeded? then Running else Crashed)
      ensures forall v :: 0 <= v < workers && v != w ==> state[v] == old(state[v])
      ensures old(failure).Some? ==> failure == old(failure)
    {
      if cursor >= |mapped| {
        Exit(w);
      } else {
        Advance(w);
      }
    }

    /** Past the end: the worker returns. */
    method Exit(w: nat)
      requires Valid() && w < workers && state[w] == Running && cursor >= |mapped|
      modifies this, state
      ensures Valid()
      ensures cursor == old(cursor) + 1 && state[w] == Exited
      ensures forall v :: 0 <= v < workers && v != w ==> state[v] == old(state[v])
      ensures failure == old(failure)
    {
      PoolOkExit(mapped, outcomes, state[..], results[..], cursor, failure, failedIndex, dispatched, sent, w);
      cursor := cursor + 1;
      state[w] := Exited;
    }

    /** Index `cursor` is handed out, posted, and its slot written, or the
        worker throws. */
    method Advance(w: nat)
      requires Valid() && w < workers && state[w] == Running && cursor < |mapped|
      modifies this, results, state
      ensures Valid()
      ensures cursor == old(cursor) + 1
      ensures state[w] == (if outcomes[old(cursor)].Succeeded? then Running else Crashed)
      ensures forall v :: 0 <= v < workers && v != w ==> state[v] == old(state[v])
      ensures old(failure).Some? ==> failure == old(failure)
    {
      var i := cursor;
      var outcome := Dispatch(i);
      PoolOkAdvance(mapped, outcomes, state[..], results[..], cursor, failure, failedIndex, dispatched, sent, w);
      // Only the first error thrown is kept: it is the one `Promise.all`
      // rejects with.
      var first := failure.None? && outcome.Failed?;
      cursor := cursor + 1;
      dispatched := dispatched + [i];
      sent := sent + [mapped[i]];
      results[i] := if outcome.Succeeded? then Some(outcome.res) else results[i];
      state[w] := if outcome.Succeeded? then Running else Crashed;
      failure := if first then Some(outcome.message) else failure;
      failedIndex := if first then i else failedIndex;
    }

    /** The dispatcher's answer for item `i`: the outcome of the retry loop
        over the item's responses. */
    method Dispatch(i: nat) returns (outcome: FetchOutcome)
      requires Valid() && i < |mapped|
      ensures outcome == outcomes[i]
    {
      var backoffs, fetches;
      outcome, backoffs, fetches := FetchWithRetry(scripts[i], MaxRetries);
    }

    /** The suspended workers resume in the order `schedule` gives; entries
        naming a worker that has finished are ignored. */
    method RunSchedule(schedule: seq<nat>)
      requires Valid()
      modifies this, results, state
      ensures Valid()
    {
      for k := 0 to |schedule|
        invariant Valid()
      {
        var w := schedule[k];
        if w < workers && state[w] == Running {
          Resume(w);
        }
      }
    }

    /** Every remaining worker runs to its end, one after the other. */
    method RunToEnd()
      requires Valid()
      modifies this, results, state
      ensures Valid() && forall w :: 0 <= w < workers ==> state[w] != Running
    {
      for w := 0 to workers
        invariant Valid()
        invariant forall v :: 0 <= v < w ==> state[v] != Running
      {
        while state[w] == Running
          invariant Valid()
          invariant forall v :: 0 <= v < w ==> state[v] != Running
          decreases |mapped| - Min(cursor, |mapped|), if state[w] == Running then 1 else 0
        {
          Resume(w);
        }
      }
    }

    /** With no error, the last worker to return found the cursor past the
        end, so every item was handed out and succeeded; the responses are
        the slots in item order. */
    method Collect() returns (rs: seq<Response>)
      requires Valid() && failure.None? && forall w :: 0 <= w < workers ==> state[w] != Running
      ensures cursor >= |mapped| && |rs| == |mapped|
      ensures forall i :: 0 <= i < |mapped| ==> outcomes[i].Succeeded? && rs[i] == outcomes[i].res
    {
      assert cursor >= |mapped| by {
        if |mapped| > 0 {
          assert state[0] == Exited;
        }
      }
      rs := [];
      for i := 0 to |mapped|
        invariant |rs| == i
        invariant forall j :: 0 <= j < i ==> outcomes[j].Succeeded? && rs[j] == outcomes[j].res
      {
        assert outcomes[i].Succeeded? && results[..][i] == results[i];
        rs := rs + [results[i].value];
      }
    }
  }

  datatype BatchOutcome = BatchOk(results: seq<Response>) | BatchFailed(message: string)

  /** `batchCreateGoogleCalendarEvents`. `scripts[i]` is what the calendar
      service answers to the posts of item `i`; `schedule` is any order in
      which suspended workers resume (entries naming a worker that has
      finished are ignored), after which every remaining worker runs to its
      end. Returns the outcome, the number of workers, the indices handed out
      by the cursor in order, and the payloads posted for them. */
  method BatchCreate(
    events: seq<ParsedEvent>, timeZone: string, reminder: ReminderSetting,
    scripts: seq<seq<FetchStep>>, schedule: seq<nat>)
    returns (outcome: BatchOutcome, workers: nat, dispatched: seq<nat>, sent: seq<CalendarEvent>)
    requires |scripts| == |events| && ScriptsFit(scripts)
    ensures workers == Min(Concurrency, |events|) && workers <= Concurrency
    ensures dispatched == Iota(|dispatched|) && |dispatched| <= |events|
    ensures sent == MapAll(events, timeZone, reminder)[..|dispatched|]
    ensures outcome.BatchOk? <==> forall i :: 0 <= i < |events| ==> ItemOutcome(scripts[i]).Succeeded?
    ensures outcome.BatchOk? ==>
      && |dispatched| == |events| && |outcome.results| == |events|
      && forall i :: 0 <= i < |events| ==> outcome.results[i] == ItemOutcome(scripts[i]).res
    ensures outcome.BatchFailed? ==>
      exists i :: 0 <= i < |dispatched| && ItemOutcome(scripts[i]) == Failed(outcome.message)
  {
    var mapped := MapAll(events, timeZone, reminder);
    var pool := new WorkerPool(mapped, scripts);
    workers := pool.workers;
    pool.RunSchedule(schedule);
    pool.RunToEnd();
    dispatched := pool.dispatched;
    sent := pool.sent;
    assert sent == mapped[..|dispatched|];
    match pool.failure {
      case Some(m) =>
        assert pool.outcomes[pool.failedIndex] == Failed(m);
        outcome := BatchFailed(m);
      case None =>
        var rs := pool.Collect();
        outcome := BatchOk(rs);
    }
  }
}
