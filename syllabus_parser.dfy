/** The syllabus parser panel: it runs the parse action on the pasted text,
    sends the parsed events to Google Calendar and saves them as tasks. The
    session lookup, the calendar service and the database answer through
    parameters. */
module SyllabusParser {
  import opened Common
  import opened Text
  import opened GoogleCalendar
  import opened ParseSyllabus
  import opened TaskRules

  // ---------------------------------------------------------------------
  // Save errors

  const SignInToSaveNotice: string := "Please sign in to save tasks."
  const NotConfiguredNotice: string :=
    "Supabase isn\U{2019}t configured. Add NEXT_PUBLIC_SUPABASE_URL and NEXT_PUBLIC_SUPABASE_ANON_KEY."

  /** The text `toFriendlySaveError` starts from: the message of an `Error`,
      otherwise `String(err)`, which is `[object Object]` for a plain object. */
  function RawText(err: JsError): (r: string)
    ensures err.ErrorInstance? ==> r == err.message
    ensures err.PlainObject? ==> r == "[object Object]"
    ensures err.Text? ==> r == err.s
  {
    match err
    case ErrorInstance(m, _) => m
    case PlainObject(_, _, _, _) => "[object Object]"
    case Text(s) => s
    case Primitive(rendered) => rendered
    case Opaque(rendered) => rendered
  }

  /** The first test of `toFriendlySaveError`, on the lowered text. */
  predicate SessionProblem(msg: string) {
    Contains(msg, "auth session missing") || Contains(msg, "jwt") || Contains(msg, "session")
  }

  /** The second test, on the lowered text. */
  predicate NotConfigured(msg: string) {
    Contains(msg, "missing next_public_supabase")
  }

  /** `toFriendlySaveError`: session problems ask the user to sign in, a
      missing configuration names the two variables, anything else shows its
      own text or a generic notice; the result is never empty. */
  function ToFriendlySaveError(err: JsError): (r: string)
    ensures r != ""
    ensures SessionProblem(ToLower(RawText(err))) ==> r == SignInToSaveNotice
    ensures !SessionProblem(ToLower(RawText(err))) && NotConfigured(ToLower(RawText(err))) ==> r == NotConfiguredNotice
    ensures !SessionProblem(ToLower(RawText(err))) && !NotConfigured(ToLower(RawText(err))) ==>
      (RawText(err) != "" ==> r == RawText(err)) && (RawText(err) == "" ==> r == "Save failed.")
  {
    var raw := RawText(err);
    var msg := ToLower(raw);
    if SessionProblem(msg) then SignInToSaveNotice
    else if NotConfigured(msg) then NotConfiguredNotice
    else OrElse(raw, "Save failed.")
  }

  /** The "auth session missing" pattern is covered by the "session" one:
      the session test is "jwt" or "session". */
  lemma SessionPatternSubsumed(msg: string)
    ensures SessionProblem(msg) <==> Contains(msg, "jwt") || Contains(msg, "session")
  {
    if Contains(msg, "auth session missing") {
      var i :| 0 <= i <= |msg| - 20 && OccursAt(msg, "auth session missing", i);
      assert msg[i + 5..i + 12] == msg[i..i + 20][5..12];
      assert OccursAt(msg, "session", i + 5);
    }
  }

  /** A text lacking one of the pattern's characters does not contain it. */
  lemma AbsentCharNoMatch(s: string, sub: string, k: nat)
    requires k < |sub| && sub[k] !in s
    ensures !Contains(s, sub)
  {
    forall i | 0 <= i <= |s| - |sub|
      ensures !OccursAt(s, sub, i)
    {
      assert s[i..i + |sub|][k] == s[i + k];
    }
  }

  /** A plain error object that reaches the save handler is shown as
      `[object Object]`: its own message is not used. */
  lemma PlainObjectShownAsObjectText(messageField: Option<string>, errorField: Option<string>, codeField: Option<string>, json: Option<string>)
    ensures ToFriendlySaveError(PlainObject(messageField, errorField, codeField, json)) == "[object Object]"
  {
    var msg := ToLower("[object Object]");
    assert msg == "[object object]";
    assert 'w' !in msg && 's' !in msg && 'm' !in msg;
    AbsentCharNoMatch(msg, "jwt", 1);
    AbsentCharNoMatch(msg, "session", 0);
    AbsentCharNoMatch(msg, "missing next_public_supabase", 0);
    SessionPatternSubsumed(msg);
  }

  // ---------------------------------------------------------------------
  // Save payload

  /** `date.includes("T") ? date.split("T")[0] : date`. */
  function DueDatePart(date: string): (r: string)
    ensures 'T' !in r
    ensures r <= date
    ensures 'T' !in date ==> r == date
    ensures 'T' in date ==> |r| < |date| && date[|r|] == 'T'
  {
    if 'T' in date then date[..IndexOf(date, 'T')] else date
  }

  /** Taking the date part twice changes nothing. */
  lemma DueDatePartIdempotent(date: string)
    ensures DueDatePart(DueDatePart(date)) == DueDatePart(date)
  {
  }

  /** One row of the insert into `assignments`. */
  datatype SaveRow = SaveRow(title: string, kind: string, dueDate: string, description: string, source: string, userId: string)

  function SaveRowOf(e: ParsedEvent, userId: string): SaveRow {
    SaveRow(e.title, e.kind, DueDatePart(e.date), e.description, "syllabus", userId)
  }

  /** The payload: one row per event, in order, tagged with the source and
      the signed-in user. */
  function SavePayload(events: seq<ParsedEvent>, userId: string): (rows: seq<SaveRow>)
    ensures |rows| == |events|
    ensures forall i :: 0 <= i < |rows| ==> rows[i] == SaveRowOf(events[i], userId)
  {
    seq(|events|, i requires 0 <= i < |events| => SaveRowOf(events[i], userId))
  }

  /** Every row keeps its event's title, kind and description, carries a
      date with no time part that starts the event's date, and belongs to
      the user with source `syllabus`. */
  lemma SavePayloadRows(events: seq<ParsedEvent>, userId: string, i: int)
    requires 0 <= i < |events|
    ensures var row := SavePayload(events, userId)[i];
      && row.title == events[i].title && row.kind == events[i].kind && row.description == events[i].description
      && row.source == "syllabus" && row.userId == userId
      && 'T' !in row.dueDate && row.dueDate <= events[i].date
  {
  }

  function SavedMessage(n: nat): string {
    "Saved " + IntToString(n) + " tasks to Supabase."
  }

  // ---------------------------------------------------------------------
  // The panel

  const NoEventsToSync: string := "No events to sync."
  const NoEventsToSave: string := "No events to save."
  const MissingTokenNotice: string :=
    "Missing Google access token. Use \U{201C}Sign in with Google\U{201D} (Calendar scope) to enable sync."
  const SignedOutSaveNotice: string := "Sign in to save tasks to Supabase."

  /** What the user lookup of the save handler gives: a thrown error (the
      client could not be created, the lookup rejected or returned an
      error), no user, or the signed-in user's id. */
  datatype UserLookup = LookupFailed(err: JsError) | SignedOut | SignedIn(id: string)

  class Panel {
    var result: Option<ParsedSyllabus>
    var error: Option<string>
    var syncStatus: Option<string>
    var saveStatus: Option<string>

    constructor ()
      ensures result == None && error == None && syncStatus == None && saveStatus == None
    {
      result := None;
      error := None;
      syncStatus := None;
      saveStatus := None;
    }

    /** `result?.events`, empty without a result. */
    function Events(): seq<ParsedEvent>
      reads this
    {
      if result.Some? then result.value.events else []
    }

    /** `onParse`, given what the action resolved to: the statuses are
        cleared, an error replaces the result, a result replaces the old
        one. A rejected action leaves the result and shows nothing. */
    method OnParse(out: ActionResult)
      modifies this
      ensures syncStatus == None && saveStatus == None
      ensures out.ActionOk? ==> result == Some(out.data) && error == None
      ensures out.ActionError? ==> result == None && error == Some(out.error)
      ensures out.ActionThrows? ==> result == old(result) && error == None
    {
      error := None;
      syncStatus := None;
      saveStatus := None;
      match out
      case ActionOk(data) =>
        result := Some(data);
      case ActionError(message) =>
        result := None;
        error := Some(message);
      case ActionThrows(_) =>
    }

    /** `onSync`: with no events or no access token the notice says why and
        nothing is sent; otherwise the events go to the calendar with the
        service's default reminders, in UTC. */
    method OnSync(token: Option<string>, scripts: seq<seq<FetchStep>>, schedule: seq<nat>)
      returns (sent: seq<CalendarEvent>)
      requires |scripts| == |Events()| && ScriptsFit(scripts)
      modifies this
      ensures |old(Events())| == 0 ==> sent == [] && syncStatus == Some(NoEventsToSync)
      ensures |old(Events())| > 0 && !Truthy(token) ==> sent == [] && syncStatus == Some(MissingTokenNotice)
      ensures |old(Events())| > 0 && Truthy(token) ==>
        && sent <= MapAll(old(Events()), "UTC", ServiceDefault)
        && syncStatus.Some?
        && ((forall i :: 0 <= i < |scripts| ==> ItemOutcome(scripts[i]).Succeeded?) ==>
              syncStatus == Some(SyncedMessage(|old(Events())|))
              && sent == MapAll(old(Events()), "UTC", ServiceDefault))
        && (!(forall i :: 0 <= i < |scripts| ==> ItemOutcome(scripts[i]).Succeeded?) ==>
              exists i :: 0 <= i < |scripts| && ItemOutcome(scripts[i]) == Failed(syncStatus.value))
      ensures result == old(result) && error == old(error) && saveStatus == old(saveStatus)
    {
      sent := [];
      syncStatus := None;
      var events := Events();
      if |events| == 0 {
        syncStatus := Some(NoEventsToSync);
        return;
      }
      if !Truthy(token) {
        syncStatus := Some(MissingTokenNotice);
        return;
      }
      var outcome, workers, dispatched, out := BatchCreate(events, "UTC", ServiceDefault, scripts, schedule);
      sent := out;
      syncStatus := Some(SyncStatus(outcome, |events|));
    }

    /** `onSaveToSupabase`: with no events, a failed lookup or no user
        nothing is inserted; otherwise the payload is inserted and the
        notice reports the count or the friendly form of the error. Returns
        the rows handed to the insert. */
    method OnSave(user: UserLookup, insert: DbResult) returns (payload: seq<SaveRow>)
      modifies this
      ensures |old(Events())| == 0 ==> payload == [] && saveStatus == Some(NoEventsToSave)
      ensures |old(Events())| > 0 && user.LookupFailed? ==>
        payload == [] && saveStatus == Some(ToFriendlySaveError(user.err))
      ensures |old(Events())| > 0 && user.SignedOut? ==> payload == [] && saveStatus == Some(SignedOutSaveNotice)
      ensures |old(Events())| > 0 && user.SignedIn? ==>
        && payload == SavePayload(old(Events()), user.id)
        && saveStatus == Some(if insert.DbOk? then SavedMessage(|old(Events())|) else ToFriendlySaveError(insert.err))
      ensures result == old(result) && error == old(error) && syncStatus == old(syncStatus)
    {
      payload := [];
      saveStatus := None;
      var events := Events();
      if |events| == 0 {
        saveStatus := Some(NoEventsToSave);
        return;
      }
      match user
      case LookupFailed(err) =>
        saveStatus := Some(ToFriendlySaveError(err));
      case SignedOut =>
        saveStatus := Some(SignedOutSaveNotice);
      case SignedIn(id) =>
        payload := SavePayload(events, id);
        match insert
        case DbError(err) =>
          saveStatus := Some(ToFriendlySaveError(err));
        case DbOk =>
          saveStatus := Some(SavedMessage(|payload|));
    }
  }
}
