/** The task board's state and its handlers: loading, the optimistic status
    change with rollback, bulk delete, drag and drop, the edit dialog, the
    selection and calendar sync. Each call into the database or the calendar
    is a parameter carrying what that call returns. */
module TaskBoard {
  import opened Common
  import opened Text
  import opened GoogleCalendar
  import opened TaskRules

  /** What a select query returns: `{ data, error }`. */
  datatype QueryResult = QueryResult(data: Option<seq<AssignmentRow>>, error: Option<JsError>)

  /** The edit dialog's fields; `taskId` is `None` while it is closed. */
  datatype EditDialog = EditDialog(
    taskId: Option<string>,
    title: string,
    kind: string,
    dueDate: string,
    description: string,
    saving: bool,
    error: Option<string>)

  /** What a saved edit sends: `due_date` is `null` when none was entered and
      `description` when the trimmed text is empty. */
  datatype EditPayload = EditPayload(title: string, kind: string, dueDate: Option<string>, description: Option<string>)

  const SignInNotice: string := "Sign in with Google to enable calendar sync."
  const LoadFailedNotice: string := "Failed to load tasks."

  /** The message `loadTasks` shows for a failed query: only an `Error`'s own
      message is shown. */
  function LoadErrorMessage(err: JsError): (r: string)
    ensures err.ErrorInstance? ==> r == err.message
    ensures !err.ErrorInstance? ==> r == LoadFailedNotice
  {
    if err.ErrorInstance? then err.message else LoadFailedNotice
  }

  /** The query whose result `loadTasks` uses: the retry without the status
      column when the first query failed for want of it. */
  function UsedQuery(first: QueryResult, fallback: QueryResult): QueryResult {
    if first.error.Some? && IsMissingStatusColumnError(first.error.value) then fallback else first
  }

  /** The payload `saveEdit` sends. */
  function EditPayloadOf(d: EditDialog): (p: EditPayload)
    ensures p.title == Trim(d.title) && p.kind == d.kind
    ensures p.dueDate.None? <==> d.dueDate == ""
    ensures p.dueDate.Some? ==> p.dueDate.value == d.dueDate
    ensures p.description.None? <==> IsBlank(d.description)
    ensures p.description.Some? ==> p.description.value == Trim(d.description)
  {
    EditPayload(Trim(d.title), d.kind,
      if d.dueDate == "" then None else Some(d.dueDate),
      if Trim(d.description) == "" then None else Some(Trim(d.description)))
  }

  /** The reminder the board passes to the batch: `null` is no reminder. */
  function ReminderSettingOf(m: Option<int>): (r: ReminderSetting)
    ensures r != ServiceDefault
    ensures m.None? <==> r == NoReminder
  {
    match m
    case None => NoReminder
    case Some(n) => MinutesBefore(n)
  }

  /** `grouped`: the sorted tasks pushed one by one onto their status's
      column. */
  method GroupByStatus(sorted: seq<TaskItem>) returns (upcoming: seq<TaskItem>, inProgress: seq<TaskItem>, completed: seq<TaskItem>)
    ensures upcoming == Column(sorted, Upcoming)
    ensures inProgress == Column(sorted, InProgress)
    ensures completed == Column(sorted, Completed)
  {
    upcoming, inProgress, completed := [], [], [];
    for i := 0 to |sorted|
      invariant upcoming == Column(sorted[..i], Upcoming)
      invariant inProgress == Column(sorted[..i], InProgress)
      invariant completed == Column(sorted[..i], Completed)
    {
      var t := sorted[i];
      assert sorted[..i + 1] == sorted[..i] + [t];
      FilterSnoc(sorted[..i], t, StatusIs(Upcoming));
      FilterSnoc(sorted[..i], t, StatusIs(InProgress));
      FilterSnoc(sorted[..i], t, StatusIs(Completed));
      match t.status
      case Upcoming => upcoming := upcoming + [t];
      case InProgress => inProgress := inProgress + [t];
      case Completed => completed := completed + [t];
    }
    assert sorted[..|sorted|] == sorted;
  }

  class Board {
    var tasks: seq<TaskItem>
    /** The per-card checkboxes, keyed by task id. */
    var selected: map<string, bool>
    /** The per-card open state, keyed by task id. */
    var expanded: map<string, bool>
    /** The notice line; `None` shows nothing. */
    var status: Option<string>
    var loading: bool
    var syncing: bool
    var reminder: Option<int>
    var activeDrag: Option<string>
    var edit: EditDialog

    /** The board as first rendered. */
    constructor ()
      ensures tasks == [] && selected == map[] && expanded == map[]
      ensures status == None && loading && !syncing && reminder == Some(1440) && activeDrag == None
      ensures edit == EditDialog(None, "", "assignment", "", "", false, None)
    {
      tasks := [];
      selected := map[];
      expanded := map[];
      status := None;
      loading := true;
      syncing := false;
      reminder := Some(1440);
      activeDrag := None;
      edit := EditDialog(None, "", "assignment", "", "", false, None);
    }

    /** `loadTasks`: query with the status column and, when the database has
        none, again without it; on success the rows become the task list, on
        failure the list stays and the notice says why. */
    method LoadTasks(first: QueryResult, fallback: QueryResult, todayKey: string) returns (queries: nat)
      modifies this
      ensures queries == if first.error.Some? && IsMissingStatusColumnError(first.error.value) then 2 else 1
      ensures !loading
      ensures UsedQuery(first, fallback).error.None? ==>
        tasks == MapRows(UsedQuery(first, fallback).data.GetOr([]), todayKey) && status == None
      ensures UsedQuery(first, fallback).error.Some? ==>
        tasks == old(tasks) && status == Some(LoadErrorMessage(UsedQuery(first, fallback).error.value))
      ensures selected == old(selected) && expanded == old(expanded) && edit == old(edit)
      ensures syncing == old(syncing) && reminder == old(reminder) && activeDrag == old(activeDrag)
    {
      loading := true;
      status := None;
      var res := first;
      queries := 1;
      if res.error.Some? && IsMissingStatusColumnError(res.error.value) {
        res := fallback;
        queries := 2;
      }
      if res.error.Some? {
        status := Some(LoadErrorMessage(res.error.value));
      } else {
        tasks := MapRows(res.data.GetOr([]), todayKey);
      }
      loading := false;
    }

    /** The effect that runs whenever the task list changes: drops the
        selections that are off or whose task is gone. */
    method PruneSelection()
      modifies this
      ensures selected == Pruned(old(selected), tasks)
      ensures tasks == old(tasks) && expanded == old(expanded) && status == old(status) && edit == old(edit)
      ensures loading == old(loading) && syncing == old(syncing) && reminder == old(reminder) && activeDrag == old(activeDrag)
    {
      if |tasks| == 0 {
        selected := map[];
        return;
      }
      var allowed := TaskIds(tasks);
      var next: map<string, bool> := map[];
      var rest := selected.Keys;
      while rest != {}
        invariant rest <= selected.Keys
        invariant next == map id | id in selected.Keys - rest && selected[id] && id in allowed :: true
        decreases |rest|
      {
        var id :| id in rest;
        if selected[id] && id in allowed {
          next := next[id := true];
        }
        rest := rest - {id};
      }
      selected := next;
    }

    /** A checkbox on a card: on selects the task, off forgets it. */
    method ToggleSelected(id: string, on: bool)
      modifies this
      ensures selected == if on then old(selected)[id := true] else old(selected) - {id}
      ensures SelectedIds(selected) == if on then SelectedIds(old(selected)) + {id} else SelectedIds(old(selected)) - {id}
      ensures tasks == old(tasks) && expanded == old(expanded) && status == old(status) && edit == old(edit)
      ensures loading == old(loading) && syncing == old(syncing) && reminder == old(reminder) && activeDrag == old(activeDrag)
    {
      if on {
        selected := selected[id := true];
      } else {
        selected := selected - {id};
      }
    }

    /** The select-all button: clears a full selection, else selects every
        task. */
    method ToggleSelectAll()
      modifies this
      ensures selected == if AllSelected(old(selected), tasks) then map[] else SelectAll(tasks)
      ensures tasks == old(tasks) && expanded == old(expanded) && status == old(status) && edit == old(edit)
      ensures loading == old(loading) && syncing == old(syncing) && reminder == old(reminder) && activeDrag == old(activeDrag)
    {
      if AllSelected(selected, tasks) {
        selected := map[];
        return;
      }
      selected := SelectAll(tasks);
    }

    /** A card's disclosure toggle. */
    method ToggleExpanded(id: string)
      modifies this
      ensures expanded == old(expanded)[id := !(id in old(expanded) && old(expanded)[id])]
      ensures tasks == old(tasks) && selected == old(selected) && status == old(status) && edit == old(edit)
      ensures loading == old(loading) && syncing == old(syncing) && reminder == old(reminder) && activeDrag == old(activeDrag)
    {
      var open := id in expanded && expanded[id];
      expanded := expanded[id := !open];
    }

    /** `updateStatus`: the task's status changes at once and the database
        is written; if a write fails the list returns to what it was before
        the call. */
    method UpdateStatus(taskId: string, next: TaskStatus, first: DbResult, fallback: DbResult, nowIso: string)
      returns (writes: seq<StatusWrite>)
      modifies this
      ensures writes == StatusWrites(next, nowIso, first)
      ensures StatusWriteOutcome(first, fallback).WriteFailed? ==>
        tasks == old(tasks) && status == Some(StatusWriteOutcome(first, fallback).message)
      ensures StatusWriteOutcome(first, fallback) == ColumnMissing ==>
        tasks == SetStatus(old(tasks), taskId, next) && status == Some(MissingColumnNotice)
      ensures StatusWriteOutcome(first, fallback) == Persisted ==>
        tasks == SetStatus(old(tasks), taskId, next) && status == None
      ensures selected == old(selected) && expanded == old(expanded) && edit == old(edit)
      ensures loading == old(loading) && syncing == old(syncing) && reminder == old(reminder) && activeDrag == old(activeDrag)
    {
      var prevTasks := tasks;
      status := None;
      tasks := SetStatus(tasks, taskId, next);
      var completedAt := if next == Completed then Some(nowIso) else None;
      writes := [StatusWrite(Some(next), completedAt)];
      if first.DbError? && IsMissingStatusColumnError(first.err) {
        writes := writes + [StatusWrite(None, completedAt)];
        if fallback.DbError? {
          tasks := prevTasks;
          status := Some(OrElse(ToErrorMessage(fallback.err), "Update failed."));
        } else {
          status := Some(MissingColumnNotice);
        }
      } else if first.DbError? {
        tasks := prevTasks;
        status := Some(OrElse(ToErrorMessage(first.err), "Update failed."));
      }
    }

    /** `handleDragEnd`: a card dropped on another status's column changes
        to that status; any other drop does nothing. */
    method HandleDragEnd(taskId: string, overId: Option<string>, first: DbResult, fallback: DbResult, nowIso: string)
      returns (writes: seq<StatusWrite>)
      modifies this
      ensures activeDrag == None
      ensures var target := ParseStatus(overId);
        var existing := Find(old(tasks), taskId);
        if target.Some? && existing.Some? && existing.value.status != target.value then
          && writes == StatusWrites(target.value, nowIso, first)
          && (StatusWriteOutcome(first, fallback).WriteFailed? ==>
                tasks == old(tasks) && status == Some(StatusWriteOutcome(first, fallback).message))
          && (StatusWriteOutcome(first, fallback) == ColumnMissing ==>
                tasks == SetStatus(old(tasks), taskId, target.value) && status == Some(MissingColumnNotice))
          && (StatusWriteOutcome(first, fallback) == Persisted ==>
                tasks == SetStatus(old(tasks), taskId, target.value) && status == None)
        else
          writes == [] && tasks == old(tasks) && status == old(status)
      ensures selected == old(selected) && expanded == old(expanded) && edit == old(edit)
      ensures loading == old(loading) && syncing == old(syncing) && reminder == old(reminder)
    {
      activeDrag := None;
      writes := [];
      if overId.None? {
        return;
      }
      var target := ParseStatus(overId);
      if target.None? {
        return;
      }
      var existing := Find(tasks, taskId);
      if existing.None? {
        return;
      }
      if existing.value.status == target.value {
        return;
      }
      writes := UpdateStatus(taskId, target.value, first, fallback, nowIso);
    }

    /** `deleteSelectedTasks`: after the user confirms, deletes the selected
        tasks and on success removes them from the list, forgets their open
        state and clears the selection. Returns the ids sent for deletion. */
    method DeleteSelected(confirmed: bool, result: DbResult) returns (requested: Option<set<string>>)
      modifies this
      ensures var ids := SelectedIds(old(selected));
        && requested == (if ids != {} && confirmed then Some(ids) else None)
        && (requested.Some? && result == DbOk ==>
              tasks == RemoveIds(old(tasks), ids) && selected == map[]
              && expanded == old(expanded) - ids && status == old(status))
        && (requested.Some? && result.DbError? ==>
              tasks == old(tasks) && selected == old(selected) && expanded == old(expanded)
              && status == Some(OrElse(ToErrorMessage(result.err), "Bulk delete failed.")))
        && (requested.None? ==>
              tasks == old(tasks) && selected == old(selected) && expanded == old(expanded) && status == old(status))
      ensures edit == old(edit) && syncing == old(syncing) && reminder == old(reminder)
      ensures loading == old(loading) && activeDrag == old(activeDrag)
    {
      var ids := SelectedIds(selected);
      if ids == {} {
        return None;
      }
      if !confirmed {
        return None;
      }
      requested := Some(ids);
      if result.DbError? {
        status := Some(OrElse(ToErrorMessage(result.err), "Bulk delete failed."));
        return;
      }
      tasks := RemoveIds(tasks, ids);
      expanded := expanded - ids;
      selected := map[];
    }

    /** `openEdit`: fills the dialog from the task; an unknown id does
        nothing. */
    method OpenEdit(taskId: string)
      modifies this
      ensures Find(old(tasks), taskId).None? ==> edit == old(edit)
      ensures Find(old(tasks), taskId).Some? ==>
        var t := Find(old(tasks), taskId).value;
        edit == EditDialog(Some(taskId), t.title, EditKind(t.kind), t.date, t.detail, old(edit).saving, None)
      ensures tasks == old(tasks) && selected == old(selected) && expanded == old(expanded) && status == old(status)
      ensures loading == old(loading) && syncing == old(syncing) && reminder == old(reminder) && activeDrag == old(activeDrag)
    {
      var found := Find(tasks, taskId);
      if found.None? {
        return;
      }
      var t := found.value;
      edit := EditDialog(Some(taskId), t.title, EditKind(t.kind), t.date, t.detail, edit.saving, None);
    }

    /** `closeEdit`: closes the dialog unless a save is in flight. */
    method CloseEdit()
      modifies this
      ensures edit == if old(edit).saving then old(edit) else old(edit).(taskId := None, error := None)
      ensures tasks == old(tasks) && selected == old(selected) && expanded == old(expanded) && status == old(status)
      ensures loading == old(loading) && syncing == old(syncing) && reminder == old(reminder) && activeDrag == old(activeDrag)
    {
      if edit.saving {
        return;
      }
      edit := edit.(taskId := None, error := None);
    }

    /** `saveEdit`: a blank title is refused; otherwise the list shows the
        edit at once and the database is written; on failure the list
        returns to what it was and the dialog shows the error, on success
        the dialog closes. Returns the payload sent, if any. */
    method SaveEdit(result: DbResult) returns (payload: Option<EditPayload>)
      modifies this
      ensures var d := old(edit);
        if d.taskId.None? then
          payload.None? && edit == d && tasks == old(tasks) && status == old(status)
        else if Trim(d.title) == "" then
          payload.None? && edit == d.(error := Some("Title is required.")) && tasks == old(tasks) && status == old(status)
        else
          && payload == Some(EditPayloadOf(d))
          && status == None && !edit.saving
          && (result == DbOk ==>
                && tasks == ApplyEdit(old(tasks), d.taskId.value, Trim(d.title), d.kind, d.dueDate, d.description)
                && edit == d.(taskId := None, error := None, saving := false))
          && (result.DbError? ==>
                tasks == old(tasks) && edit == d.(error := Some(ToErrorMessage(result.err)), saving := false))
      ensures selected == old(selected) && expanded == old(expanded)
      ensures loading == old(loading) && syncing == old(syncing) && reminder == old(reminder) && activeDrag == old(activeDrag)
    {
      var d := edit;
      if d.taskId.None? {
        payload := None;
      } else if Trim(d.title) == "" {
        edit := d.(error := Some("Title is required."));
        payload := None;
      } else {
        CommitEdit(d, Trim(d.title), result);
        payload := Some(EditPayloadOf(d));
      }
    }

    /** The part of `saveEdit` after the title check, for the trimmed title:
        the optimistic update, the write and its outcome. */
    method CommitEdit(d: EditDialog, title: string, result: DbResult)
      requires d.taskId.Some?
      modifies this
      ensures status == None && !edit.saving
      ensures result == DbOk ==>
        && tasks == ApplyEdit(old(tasks), d.taskId.value, title, d.kind, d.dueDate, d.description)
        && edit == d.(taskId := None, error := None, saving := false)
      ensures result.DbError? ==>
        tasks == old(tasks) && edit == d.(error := Some(ToErrorMessage(result.err)), saving := false)
      ensures selected == old(selected) && expanded == old(expanded)
      ensures loading == old(loading) && syncing == old(syncing) && reminder == old(reminder) && activeDrag == old(activeDrag)
    {
      var prev := tasks;
      var edited := ApplyEdit(prev, d.taskId.value, title, d.kind, d.dueDate, d.description);
      // The dialog shows the save in flight until the write returns.
      edit := d.(saving := true, error := None);
      status := None;
      tasks := edited;
      if result.DbError? {
        tasks := prev;
        edit := d.(error := Some(ToErrorMessage(result.err)), saving := false);
      } else {
        edit := d.(taskId := None, error := None, saving := false);
      }
    }

    /** The effect that reads the stored reminder preference on mount. */
    method LoadReminder(saved: Option<int>)
      modifies this
      ensures reminder == saved
      ensures tasks == old(tasks) && selected == old(selected) && expanded == old(expanded) && status == old(status)
      ensures edit == old(edit) && loading == old(loading) && syncing == old(syncing) && activeDrag == old(activeDrag)
    {
      reminder := saved;
    }

    /** `onSyncAll`: without a Google access token the notice asks to sign
        in; otherwise every task not completed is sent to the calendar with
        the chosen reminder, and the notice reports the count or the
        failure. Ignored while a sync is running. Returns the events sent,
        empty when nothing was sent. */
    method OnSyncAll(token: Option<string>, scripts: seq<seq<FetchStep>>, schedule: seq<nat>)
      returns (sent: seq<CalendarEvent>)
      requires |scripts| == |SyncEvents(tasks)| && ScriptsFit(scripts)
      modifies this
      ensures old(syncing) ==> sent == [] && status == old(status) && syncing
      ensures !old(syncing) && !Truthy(token) ==> sent == [] && status == Some(SignInNotice) && !syncing
      ensures !old(syncing) && Truthy(token) ==>
        && !syncing
        && sent <= MapAll(SyncEvents(tasks), "UTC", ReminderSettingOf(reminder))
        && status.Some?
        && ((forall i :: 0 <= i < |scripts| ==> ItemOutcome(scripts[i]).Succeeded?) ==>
              status == Some(SyncedMessage(|SyncEvents(tasks)|))
              && sent == MapAll(SyncEvents(tasks), "UTC", ReminderSettingOf(reminder)))
        && (!(forall i :: 0 <= i < |scripts| ==> ItemOutcome(scripts[i]).Succeeded?) ==>
              exists i :: 0 <= i < |scripts| && ItemOutcome(scripts[i]) == Failed(status.value))
      ensures tasks == old(tasks) && selected == old(selected) && expanded == old(expanded) && edit == old(edit)
      ensures reminder == old(reminder)
      ensures loading == old(loading) && activeDrag == old(activeDrag)
    {
      sent := [];
      if syncing {
        return;
      }
      syncing := true;
      status := None;
      if !Truthy(token) {
        status := Some(SignInNotice);
        syncing := false;
        return;
      }
      var events := SyncEvents(tasks);
      var outcome, workers, dispatched, out := BatchCreate(events, "UTC", ReminderSettingOf(reminder), scripts, schedule);
      sent := out;
      status := Some(SyncStatus(outcome, |events|));
      syncing := false;
    }
  }

  /** After select-all on tasks with distinct ids, every task counts as
      selected, so a second press of the button clears the selection. */
  lemma SelectAllThenAllSelected(tasks: seq<TaskItem>)
    requires UniqueIds(tasks) && |tasks| > 0
    ensures AllSelected(SelectAll(tasks), tasks)
  {
    UniqueIdsCount(tasks);
  }

  /** The payload always carries the trimmed title, so a saved title is
      never blank, and an emptied description is stored as `null`. */
  lemma EditPayloadTitle(d: EditDialog)
    requires !IsBlank(d.title)
    ensures EditPayloadOf(d).title != ""
    ensures EditPayloadOf(d).description.Some? ==> EditPayloadOf(d).description.value != ""
  {
  }
}
