/** The "Add task" dialog: it inserts one task for the signed-in user, and
    retries without the `status` column when the database lacks it. The
    session lookup and the two inserts answer through parameters; `nowIso`
    is the timestamp `new Date().toISOString()` gives. */
module AddTask {
  import opened Common
  import opened Text
  import opened TaskRules

  /** `isMissingStatusColumnError` of the dialog: an object whose string
      `code` is 42703, or whose lower-cased string `message` mentions a
      column, `status` and "does not exist". */
  predicate IsMissingStatusColumn(err: JsError) {
    var m := ToLower(err.MessageText());
    && err.IsObject()
    && (err.CodeText() == "42703" || (Contains(m, "column") && Contains(m, "status") && Contains(m, "does not exist")))
  }

  /** The dialog's test is narrower than the board's: whatever it accepts
      the board accepts, and a PostgREST schema-cache miss (code PGRST204)
      is accepted by the board only. */
  lemma NarrowerThanBoard(err: JsError)
    ensures IsMissingStatusColumn(err) ==> IsMissingStatusColumnError(err)
    ensures var e := PlainObject(None, None, Some("PGRST204"), None);
      IsMissingStatusColumnError(e) && !IsMissingStatusColumn(e)
  {
    var e := PlainObject(None, None, Some("PGRST204"), None);
    assert e.CodeText() == "PGRST204";
    assert e.MessageText() == "";
    var m := ToLower(e.MessageText());
    assert m == "";
    assert !OccursAt(m, "column", 0);
  }

  /** One insert into `assignments`. `status` is absent in the retry. */
  datatype InsertRow = InsertRow(
    userId: string, title: string, kind: string, status: Option<TaskStatus>,
    dueDate: Option<string>, description: Option<string>, completedAt: Option<string>)

  /** `x || null` on a string. */
  function OrNull(s: string): (r: Option<string>)
    ensures r.None? <==> s == ""
    ensures r.Some? ==> r.value == s
  {
    if s == "" then None else Some(s)
  }

  /** The first insert: the trimmed title, the chosen kind and status, an
      empty date and a blank description sent as `null`, and a completion
      time exactly when the status is completed. */
  function FirstInsert(userId: string, title: string, kind: string, status: TaskStatus,
                       dueDate: string, description: string, nowIso: string): (r: InsertRow)
    ensures r.userId == userId && r.title == Trim(title) && r.kind == kind && r.status == Some(status)
    ensures r.completedAt.Some? <==> status == Completed
    ensures r.completedAt.Some? ==> r.completedAt.value == nowIso
    ensures r.dueDate.None? <==> dueDate == ""
    ensures r.dueDate.Some? ==> r.dueDate.value == dueDate
    ensures r.description.None? <==> Trim(description) == ""
    ensures r.description.Some? ==> r.description.value == Trim(description)
  {
    InsertRow(userId, Trim(title), kind, Some(status), OrNull(dueDate), OrNull(Trim(description)),
              if status == Completed then Some(nowIso) else None)
  }

  /** The retry: the same row without `status`. */
  function FallbackInsert(first: InsertRow): (r: InsertRow)
    ensures r.status.None?
    ensures r.(status := first.status) == first
  {
    first.(status := None)
  }

  const SignInToAddNotice: string := "Sign in to add tasks."
  const MigrationNotice: string := "Added task, but status needs DB migration 003 to persist."

  /** The catch block: an `Error`'s message, anything else a fixed notice. */
  function CaughtMessage(err: JsError): (r: string)
    ensures err.ErrorInstance? ==> r == err.message
    ensures !err.ErrorInstance? ==> r == "Failed to add task."
  {
    if err.ErrorInstance? then err.message else "Failed to add task."
  }

  /** What the session lookup gives: a thrown or returned error, or the
      session's user id (absent when there is no session). */
  datatype SessionLookup = SessionFailed(err: JsError) | SessionOk(userId: Option<string>)

  /** How `onCreate` ends for a non-blank title: the inserts made, in
      order, the notice shown, and whether the form is reset. */
  datatype CreatePlan = CreatePlan(inserts: seq<InsertRow>, error: Option<string>, reset: bool)

  /** The steps of `onCreate` after the blank-title check. A failed lookup
      or a missing user ends with a notice and no insert; otherwise the
      first insert is tried and, only when it fails for want of the status
      column, the insert without it. A success resets the form (after the
      retry, with the migration notice); a failure keeps the form and
      shows the error. */
  function Plan(title: string, kind: string, status: TaskStatus, dueDate: string, description: string,
                session: SessionLookup, nowIso: string, first: DbResult, fallback: DbResult): (p: CreatePlan)
    ensures session.SessionFailed? ==> p == CreatePlan([], Some(CaughtMessage(session.err)), false)
    ensures session.SessionOk? && !Truthy(session.userId) ==> p == CreatePlan([], Some(SignInToAddNotice), false)
    ensures session.SessionOk? && Truthy(session.userId) ==>
      var row := FirstInsert(session.userId.value, title, kind, status, dueDate, description, nowIso);
      && (first.DbError? && IsMissingStatusColumn(first.err) ==>
            && p.inserts == [row, FallbackInsert(row)]
            && (fallback.DbOk? ==> p.reset && p.error == Some(MigrationNotice))
            && (fallback.DbError? ==> !p.reset && p.error == Some(CaughtMessage(fallback.err))))
      && (!(first.DbError? && IsMissingStatusColumn(first.err)) ==>
            && p.inserts == [row]
            && (first.DbOk? ==> p.reset && p.error == None)
            && (first.DbError? ==> !p.reset && p.error == Some(CaughtMessage(first.err))))
    ensures p.reset <==> session.SessionOk? && Truthy(session.userId) && (first.DbOk? || (IsMissingStatusColumn(first.err) && fallback.DbOk?))
  {
    match session
    case SessionFailed(err) => CreatePlan([], Some(CaughtMessage(err)), false)
    case SessionOk(userId) =>
      if !Truthy(userId) then CreatePlan([], Some(SignInToAddNotice), false)
      else
        var row := FirstInsert(userId.value, title, kind, status, dueDate, description, nowIso);
        if first.DbError? && IsMissingStatusColumn(first.err) then
          if fallback.DbError? then CreatePlan([row, FallbackInsert(row)], Some(CaughtMessage(fallback.err)), false)
          else CreatePlan([row, FallbackInsert(row)], Some(MigrationNotice), true)
        else if first.DbError? then CreatePlan([row], Some(CaughtMessage(first.err)), false)
        else CreatePlan([row], None, true)
  }

  /** A successful insert is never retried, and the retry happens only
      after a missing-column failure of the first. */
  lemma RetryOnlyOnMissingColumn(title: string, kind: string, status: TaskStatus, dueDate: string, description: string,
                                 session: SessionLookup, nowIso: string, first: DbResult, fallback: DbResult)
    ensures |Plan(title, kind, status, dueDate, description, session, nowIso, first, fallback).inserts| == 2
      <==> session.SessionOk? && Truthy(session.userId) && first.DbError? && IsMissingStatusColumn(first.err)
  {
  }

  class Dialog {
    var open: bool
    var title: string
    var kind: string
    var status: TaskStatus
    var dueDate: string
    var description: string
    var saving: bool
    var error: Option<string>

    constructor ()
      ensures !open && title == "" && kind == "assignment" && status == Upcoming
      ensures dueDate == "" && description == "" && !saving && error == None
    {
      open := false;
      title := "";
      kind := "assignment";
      status := Upcoming;
      dueDate := "";
      description := "";
      saving := false;
      error := None;
    }

    /** The form after a successful insert: closed and back to its
        defaults. */
    predicate IsReset()
      reads this
    {
      !open && title == "" && dueDate == "" && description == "" && status == Upcoming && kind == "assignment"
    }

    /** `onCreate`. A blank title changes nothing; otherwise the steps of
        `Plan` run, and the dialog is no longer saving at the end. Returns
        the inserts made, in order. */
    method OnCreate(session: SessionLookup, nowIso: string, first: DbResult, fallback: DbResult)
      returns (inserts: seq<InsertRow>)
      modifies this
      ensures Trim(old(title)) == "" ==>
        inserts == [] && open == old(open) && title == old(title) && kind == old(kind) && status == old(status)
        && dueDate == old(dueDate) && description == old(description) && saving == old(saving) && error == old(error)
      ensures Trim(old(title)) != "" ==>
        var p := Plan(old(title), old(kind), old(status), old(dueDate), old(description), session, nowIso, first, fallback);
        && inserts == p.inserts && error == p.error && !saving
        && (p.reset ==> IsReset())
        && (!p.reset ==> open == old(open) && title == old(title) && kind == old(kind) && status == old(status)
                         && dueDate == old(dueDate) && description == old(description))
    {
      inserts := [];
      if Trim(title) == "" {
        return;
      }
      var p := Plan(title, kind, status, dueDate, description, session, nowIso, first, fallback);
      inserts := p.inserts;
      Finish(p);
    }

    /** The end of `onCreate`: the notice, the reset when the plan calls
        for one, and `saving` cleared. */
    method Finish(p: CreatePlan)
      modifies this
      ensures error == p.error && !saving
      ensures p.reset ==> IsReset()
      ensures !p.reset ==> open == old(open) && title == old(title) && kind == old(kind) && status == old(status)
                           && dueDate == old(dueDate) && description == old(description)
    {
      error := p.error;
      if p.reset {
        open := false;
        title := "";
        dueDate := "";
        description := "";
        status := Upcoming;
        kind := "assignment";
      }
      saving := false;
    }
  }
}
