/** The pure rules of the task board: statuses, the two error classifiers,
    the relative-date label, turning a stored row into a task, the filters,
    the sort, the three status columns, the selection and the list of
    events handed to calendar sync. */
module TaskRules {
  import opened Common
  import opened Text
  import opened Dates
  import opened GoogleCalendar

  // ---------------------------------------------------------------------
  // Statuses and tasks

  datatype TaskStatus = Upcoming | InProgress | Completed

  function StatusName(s: TaskStatus): string {
    match s
    case Upcoming => "upcoming"
    case InProgress => "in-progress"
    case Completed => "completed"
  }

  /** `isTaskStatus` on a value that is a string (`Some`) or anything else. */
  function ParseStatus(v: Option<string>): Option<TaskStatus> {
    if v == Some("upcoming") then Some(Upcoming)
    else if v == Some("in-progress") then Some(InProgress)
    else if v == Some("completed") then Some(Completed)
    else None
  }

  /** Exactly the three status names are accepted, each as its own status. */
  lemma ParseStatusExact(v: Option<string>)
    ensures ParseStatus(v).Some? <==> v.Some? && v.value in {"upcoming", "in-progress", "completed"}
    ensures ParseStatus(v).Some? ==> v == Some(StatusName(ParseStatus(v).value))
  {
  }

  lemma ParseStatusName(s: TaskStatus)
    ensures ParseStatus(Some(StatusName(s))) == Some(s)
  {
  }

  /** `TaskItem`; `kind` is the category, kept as the string read from the
      database. Subtasks are carried through unchanged and are not part of
      this model. */
  datatype TaskItem = TaskItem(id: string, title: string, kind: string, status: TaskStatus, date: string, detail: string)

  /** `AssignmentRow`: `None` stands for `null`. */
  datatype AssignmentRow = AssignmentRow(
    id: string,
    title: string,
    kind: Option<string>,
    status: Option<string>,
    dueDate: Option<string>,
    description: Option<string>,
    completedAt: Option<string>)

  // ---------------------------------------------------------------------
  // Error classifiers

  /** `toErrorMessage`. */
  function ToErrorMessage(err: JsError): (r: string)
    ensures err.ErrorInstance? ==> r == err.message
    ensures err.Text? ==> r == err.s
    ensures err.Primitive? ==> r == err.rendered
    ensures err.Opaque? ==> r == "Unknown error"
  {
    match err
    case ErrorInstance(m, _) => m
    case Text(s) => s
    case Primitive(rendered) => rendered
    case PlainObject(message, error, _, json) =>
      if message.Some? then message.value
      else if error.Some? then error.value
      else if json.Some? then json.value
      else "Unknown error"
    case Opaque(_) => "Unknown error"
  }

  /** For a plain object: its string `message`, else its string `error`, else
      its JSON text, else "Unknown error". */
  lemma PlainObjectMessage(message: Option<string>, error: Option<string>, code: Option<string>, json: Option<string>)
    ensures var r := ToErrorMessage(PlainObject(message, error, code, json));
      && (message.Some? ==> r == message.value)
      && (message.None? && error.Some? ==> r == error.value)
      && (message.None? && error.None? && json.Some? ==> r == json.value)
      && (message.None? && error.None? && json.None? ==> r == "Unknown error")
  {
  }

  /** `x || fallback` on a string. */
  function OrElse(s: string, fallback: string): (r: string)
    ensures r != "" || fallback == ""
  {
    if s == "" then fallback else s
  }

  /** The message patterns the board treats as a missing `status` column. */
  predicate MissingColumnMessage(m: string) {
    || (Contains(m, "column") && Contains(m, "status") && Contains(m, "does not exist"))
    || (Contains(m, "schema cache") && Contains(m, "status") && Contains(m, "assignments"))
  }

  /** `isMissingStatusColumnError` of the board: an object whose string
      `code` is 42703 (PostgreSQL undefined_column) or PGRST204 (PostgREST
      schema cache miss), or whose lower-cased string `message` matches one
      of the two patterns. */
  predicate IsMissingStatusColumnError(err: JsError) {
    && err.IsObject()
    && (|| err.CodeText() == "42703"
        || err.CodeText() == "PGRST204"
        || MissingColumnMessage(ToLower(err.MessageText())))
  }

  /** The test looks at the message only through its lower-cased form. */
  lemma MissingColumnCaseInsensitive(e1: JsError, e2: JsError)
    requires e1.IsObject() == e2.IsObject() && e1.CodeText() == e2.CodeText()
    requires ToLower(e1.MessageText()) == ToLower(e2.MessageText())
    ensures IsMissingStatusColumnError(e1) == IsMissingStatusColumnError(e2)
  {
  }

  /** A thrown string, number or other non-object never counts, whatever it
      says. */
  lemma MissingColumnNeedsObject(err: JsError)
    requires !err.IsObject()
    ensures !IsMissingStatusColumnError(err)
  {
  }

  /** Either of the two codes is enough, whatever the message says. */
  lemma MissingColumnByCode(err: JsError)
    requires err.IsObject() && err.CodeText() in {"42703", "PGRST204"}
    ensures IsMissingStatusColumnError(err)
  {
  }

  // ---------------------------------------------------------------------
  // Relative date label

  /** `{ text, urgent, overdue }`. */
  datatype RelativeDate = RelativeDate(text: string, urgent: bool, overdue: bool)

  /** `formatRelativeDate` of the board, over the whole-day difference between
      the due date and today (`None` when the date does not parse, which
      makes every comparison false). */
  function FormatRelativeDate(dateStr: string, diffDays: Option<int>): (r: RelativeDate)
    ensures r.overdue <==> diffDays.Some? && diffDays.value < 0
    ensures r.urgent <==> diffDays.Some? && diffDays.value <= 7
    ensures !r.urgent ==> r.text == dateStr
  {
    match diffDays
    case None => RelativeDate(dateStr, false, false)
    case Some(d) =>
      if d < 0 then
        var abs := 0 - d;
        RelativeDate("Overdue by " + IntToString(abs) + " day" + (if abs == 1 then "" else "s"), true, true)
      else if d == 0 then RelativeDate("Due today", true, false)
      else if d == 1 then RelativeDate("Due tomorrow", true, false)
      else if d <= 7 then RelativeDate("Due in " + IntToString(d) + " days", true, false)
      else RelativeDate(dateStr, false, false)
  }

  /** The labels for each band of day differences. */
  lemma RelativeDateTexts(dateStr: string, d: int)
    ensures d == -1 ==> FormatRelativeDate(dateStr, Some(d)).text == "Overdue by 1 day"
    ensures d < -1 ==> FormatRelativeDate(dateStr, Some(d)).text == "Overdue by " + IntToString(-d) + " days"
    ensures d == 0 ==> FormatRelativeDate(dateStr, Some(d)).text == "Due today"
    ensures d == 1 ==> FormatRelativeDate(dateStr, Some(d)).text == "Due tomorrow"
    ensures 2 <= d <= 7 ==> FormatRelativeDate(dateStr, Some(d)).text == "Due in " + IntToString(d) + " days"
    ensures d > 7 ==> FormatRelativeDate(dateStr, Some(d)).text == dateStr
  {
    if d == -1 {
      assert IntToString(1) == "1";
    }
  }

  /** The date label on a card: a completed task that is past due reads
      "Completed" instead of the overdue warning. */
  function CardDateLabel(t: TaskItem, rel: RelativeDate): (r: string)
    ensures t.status != Completed || !rel.overdue ==> r == rel.text
  {
    if t.status == Completed && rel.overdue then "Completed" else rel.text
  }

  // ---------------------------------------------------------------------
  // Loading

  /** The row-to-task mapping of `loadTasks`, with `todayKey` the UTC day key
      of the load. */
  function RowToTask(row: AssignmentRow, todayKey: string): TaskItem {
    var hasCompleted := Truthy(row.completedAt);
    var date := row.dueDate.GetOr(todayKey);
    var derived := if hasCompleted then Completed else if LexLess(date, todayKey) then InProgress else Upcoming;
    var stored := ParseStatus(row.status);
    var status := if hasCompleted then Completed else stored.GetOr(derived);
    TaskItem(row.id, row.title, row.kind.GetOr("assignment"), status, date, row.description.GetOr(""))
  }

  /** How a loaded task gets its status: a completion time wins over
      everything, then a valid stored status, then the due date against
      today; a missing due date becomes today and so reads as upcoming. */
  lemma RowStatusRules(row: AssignmentRow, todayKey: string)
    ensures var t := RowToTask(row, todayKey);
      && (Truthy(row.completedAt) ==> t.status == Completed)
      && (!Truthy(row.completedAt) && ParseStatus(row.status).Some? ==> t.status == ParseStatus(row.status).value)
      && (!Truthy(row.completedAt) && ParseStatus(row.status).None? ==>
            t.status == if LexLess(t.date, todayKey) then InProgress else Upcoming)
      && (row.dueDate.None? ==> t.date == todayKey)
      && (row.dueDate.None? && !Truthy(row.completedAt) && ParseStatus(row.status).None? ==> t.status == Upcoming)
  {
    LexLessIrreflexive(todayKey);
  }

  /** With day keys of four-digit years, a task without completion time or
      stored status is in progress exactly when its due date is before today. */
  lemma RowInProgressMeansPastDue(row: AssignmentRow, due: Date, today: Date)
    requires Valid(due) && Valid(today) && 1000 <= due.year <= 9999 && 1000 <= today.year <= 9999
    requires row.dueDate == Some(Format(due)) && !Truthy(row.completedAt) && ParseStatus(row.status).None?
    ensures RowToTask(row, Format(today)).status == InProgress <==> Before(due, today)
  {
    FormatOrder(due, today);
  }

  function MapRows(rows: seq<AssignmentRow>, todayKey: string): (r: seq<TaskItem>)
    ensures |r| == |rows|
    ensures forall i :: 0 <= i < |rows| ==> r[i] == RowToTask(rows[i], todayKey)
  {
    seq(|rows|, i requires 0 <= i < |rows| => RowToTask(rows[i], todayKey))
  }

  // ---------------------------------------------------------------------
  // Filter, sort, columns

  datatype TypeFilter = AnyType | OnlyType(kind: string)
  datatype DueFilter = AnyDue | DueThisWeek | DueOverdue
  datatype SortOrder = ByDue | ByAdded

  /** The filter of `filteredTasks`. `offset` is the whole-day difference
      between the task's date at local midnight and today (`None` when the
      date does not parse: every comparison with it is false, so such a task
      passes both due filters). */
  predicate Keep(t: TaskItem, typeFilter: TypeFilter, dueFilter: DueFilter, offset: Option<int>) {
    && (typeFilter.OnlyType? ==> t.kind == typeFilter.kind)
    && (dueFilter.DueOverdue? && offset.Some? ==> offset.value < 0)
    && (dueFilter.DueThisWeek? && offset.Some? ==> 0 <= offset.value <= 7)
  }

  function Keeper(typeFilter: TypeFilter, dueFilter: DueFilter, offsetOf: string -> Option<int>): TaskItem -> bool {
    (t: TaskItem) => Keep(t, typeFilter, dueFilter, offsetOf(t.date))
  }

  function FilterTasks(tasks: seq<TaskItem>, typeFilter: TypeFilter, dueFilter: DueFilter, offsetOf: string -> Option<int>): seq<TaskItem> {
    Filter(tasks, Keeper(typeFilter, dueFilter, offsetOf))
  }

  /** A task is shown exactly when it passes the filters; the shown tasks keep
      their relative order, and no filter at all shows every task. */
  lemma FilterTasksSpec(tasks: seq<TaskItem>, typeFilter: TypeFilter, dueFilter: DueFilter, offsetOf: string -> Option<int>, t: TaskItem)
    ensures t in FilterTasks(tasks, typeFilter, dueFilter, offsetOf) <==>
      t in tasks && Keep(t, typeFilter, dueFilter, offsetOf(t.date))
    ensures forall a, b :: (FilterTasks(a + b, typeFilter, dueFilter, offsetOf) ==
      FilterTasks(a, typeFilter, dueFilter, offsetOf) + FilterTasks(b, typeFilter, dueFilter, offsetOf))
  {
    FilterMembership(tasks, Keeper(typeFilter, dueFilter, offsetOf), t);
    forall a, b ensures FilterTasks(a + b, typeFilter, dueFilter, offsetOf) ==
      FilterTasks(a, typeFilter, dueFilter, offsetOf) + FilterTasks(b, typeFilter, dueFilter, offsetOf)
    {
      FilterConcat(a, b, Keeper(typeFilter, dueFilter, offsetOf));
    }
  }

  lemma {:induction false} FilterAllKept(tasks: seq<TaskItem>, offsetOf: string -> Option<int>)
    ensures FilterTasks(tasks, AnyType, AnyDue, offsetOf) == tasks
    decreases |tasks|
  {
    if |tasks| > 0 {
      FilterAllKept(tasks[..|tasks| - 1], offsetOf);
      assert tasks == tasks[..|tasks| - 1] + [tasks[|tasks| - 1]];
      FilterSnoc(tasks[..|tasks| - 1], tasks[|tasks| - 1], Keeper(AnyType, AnyDue, offsetOf));
      assert Keep(tasks[|tasks| - 1], AnyType, AnyDue, offsetOf(tasks[|tasks| - 1].date));
      assert Keeper(AnyType, AnyDue, offsetOf)(tasks[|tasks| - 1]);
    }
  }

  /** Ascending by date string; the sort key is compared as the string order. */
  predicate SortedByDate(s: seq<TaskItem>) {
    forall i, j :: 0 <= i < j < |s| ==> LexLessEq(s[i].date, s[j].date)
  }

  /** Puts `t` before the first element whose date is not smaller, so equal
      dates keep their order. */
  function InsertByDate(t: TaskItem, s: seq<TaskItem>): (r: seq<TaskItem>)
    ensures multiset(r) == multiset(s) + multiset{t}
  {
    if |s| == 0 then [t]
    else if LexLess(s[0].date, t.date) then
      assert s == [s[0]] + s[1..];
      [s[0]] + InsertByDate(t, s[1..])
    else [t] + s
  }

  /** Every element of `s` has a date not below `x`'s. */
  predicate LowerBound(x: string, s: seq<TaskItem>) {
    forall i :: 0 <= i < |s| ==> LexLessEq(x, s[i].date)
  }

  lemma SortedCons(x: TaskItem, rest: seq<TaskItem>)
    requires SortedByDate(rest) && LowerBound(x.date, rest)
    ensures SortedByDate([x] + rest)
  {
    forall i, j | 0 <= i < j < |rest| + 1
      ensures LexLessEq(([x] + rest)[i].date, ([x] + rest)[j].date)
    {
      if i > 0 {
        assert ([x] + rest)[i] == rest[i - 1];
      }
      assert ([x] + rest)[j] == rest[j - 1];
    }
  }

  /** A lower bound for the first element of a sorted list bounds all of it. */
  lemma SortedLowerBound(x: string, s: seq<TaskItem>)
    requires SortedByDate(s) && |s| > 0 && LexLessEq(x, s[0].date)
    ensures LowerBound(x, s)
  {
    forall k | 0 <= k < |s|
      ensures LexLessEq(x, s[k].date)
    {
      if x != s[0].date && s[0].date != s[k].date {
        LexLessTransitive(x, s[0].date, s[k].date);
      }
    }
  }

  /** A lower bound of a list and of `t` bounds the list after inserting `t`. */
  lemma InsertLowerBound(x: string, t: TaskItem, s: seq<TaskItem>)
    requires LowerBound(x, s) && LexLessEq(x, t.date)
    ensures LowerBound(x, InsertByDate(t, s))
  {
    var r := InsertByDate(t, s);
    forall k | 0 <= k < |r|
      ensures LexLessEq(x, r[k].date)
    {
      assert r[k] in multiset(r);
      if r[k] != t {
        assert r[k] in multiset(s);
      }
    }
  }

  /** Inserting into a sorted list keeps it sorted. */
  lemma {:induction false} InsertByDateSorted(t: TaskItem, s: seq<TaskItem>)
    requires SortedByDate(s)
    ensures SortedByDate(InsertByDate(t, s))
    decreases |s|
  {
    if |s| == 0 {
    } else if LexLess(s[0].date, t.date) {
      var tail := s[1..];
      InsertByDateSorted(t, tail);
      assert LowerBound(s[0].date, tail) by {
        forall k | 0 <= k < |tail|
          ensures LexLessEq(s[0].date, tail[k].date)
        {
          assert tail[k] == s[k + 1];
        }
      }
      InsertLowerBound(s[0].date, t, tail);
      SortedCons(s[0], InsertByDate(t, tail));
    } else {
      LexLessTotal(s[0].date, t.date);
      SortedLowerBound(t.date, s);
      SortedCons(t, s);
    }
  }

  /** `copy.sort((a, b) => a.date.localeCompare(b.date))`, stable. */
  function SortByDate(s: seq<TaskItem>): (r: seq<TaskItem>)
    ensures multiset(r) == multiset(s)
  {
    if |s| == 0 then []
    else
      assert s == [s[0]] + s[1..];
      InsertByDate(s[0], SortByDate(s[1..]))
  }

  lemma {:induction false} SortByDateSorted(s: seq<TaskItem>)
    ensures SortedByDate(SortByDate(s))
    decreases |s|
  {
    if |s| > 0 {
      SortByDateSorted(s[1..]);
      InsertByDateSorted(s[0], SortByDate(s[1..]));
    }
  }

  function DateIs(key: string): TaskItem -> bool {
    (t: TaskItem) => t.date == key
  }

  lemma FilterSingleton(x: TaskItem, p: TaskItem -> bool)
    ensures Filter([x], p) == if p(x) then [x] else []
  {
    FilterSnoc([], x, p);
    assert [] + [x] == [x];
  }

  /** Inserting `t` puts it in front of every element with the same date
      and leaves the order of the others with that date alone. */
  lemma {:induction false} InsertByDateFilter(t: TaskItem, s: seq<TaskItem>, key: string)
    ensures Filter(InsertByDate(t, s), DateIs(key)) == (if t.date == key then [t] else []) + Filter(s, DateIs(key))
    decreases |s|
  {
    var p := DateIs(key);
    FilterSingleton(t, p);
    if |s| == 0 {
    } else if LexLess(s[0].date, t.date) {
      var tail := s[1..];
      var ins := InsertByDate(t, tail);
      assert s == [s[0]] + tail;
      assert InsertByDate(t, s) == [s[0]] + ins;
      InsertByDateFilter(t, tail, key);
      FilterConcat([s[0]], ins, p);
      FilterConcat([s[0]], tail, p);
      FilterSingleton(s[0], p);
      var head := Filter([s[0]], p);
      if t.date == key {
        LexLessIrreflexive(key);
        assert head == [];
        assert Filter(InsertByDate(t, s), p) == [t] + Filter(tail, p);
      } else {
        assert Filter(ins, p) == Filter(tail, p);
      }
    } else {
      FilterConcat([t], s, p);
    }
  }

  /** The sort is stable: the tasks due on any one date come out in the
      order they went in. */
  lemma {:induction false} SortByDateStable(s: seq<TaskItem>, key: string)
    ensures Filter(SortByDate(s), DateIs(key)) == Filter(s, DateIs(key))
    decreases |s|
  {
    if |s| > 0 {
      var p := DateIs(key);
      assert s == [s[0]] + s[1..];
      SortByDateStable(s[1..], key);
      InsertByDateFilter(s[0], SortByDate(s[1..]), key);
      FilterConcat([s[0]], s[1..], p);
      FilterSnoc([], s[0], p);
      assert [] + [s[0]] == [s[0]];
    }
  }

  /** Either order keeps the tasks of one due date in loaded order. */
  lemma SortTasksStable(s: seq<TaskItem>, order: SortOrder, key: string)
    ensures Filter(SortTasks(s, order), DateIs(key)) == Filter(s, DateIs(key))
  {
    if order == ByDue {
      SortByDateStable(s, key);
    }
  }

  /** `sortedTasks`: by due date, or in the order loaded. */
  function SortTasks(s: seq<TaskItem>, order: SortOrder): (r: seq<TaskItem>)
    ensures multiset(r) == multiset(s)
    ensures order == ByDue ==> SortedByDate(r)
    ensures order == ByAdded ==> r == s
  {
    if order == ByDue then
      SortByDateSorted(s);
      SortByDate(s)
    else s
  }

  function StatusIs(st: TaskStatus): TaskItem -> bool {
    (t: TaskItem) => t.status == st
  }

  /** The tasks in a status column, in the order given. */
  function Column(s: seq<TaskItem>, st: TaskStatus): seq<TaskItem> {
    Filter(s, StatusIs(st))
  }

  /** The three columns together hold as many tasks as the list. */
  lemma {:induction false} ColumnsCount(s: seq<TaskItem>)
    ensures |Column(s, Upcoming)| + |Column(s, InProgress)| + |Column(s, Completed)| == |s|
    decreases |s|
  {
    if |s| > 0 {
      var init, x := s[..|s| - 1], s[|s| - 1];
      ColumnsCount(init);
      assert s == init + [x];
      FilterSnoc(init, x, StatusIs(Upcoming));
      FilterSnoc(init, x, StatusIs(InProgress));
      FilterSnoc(init, x, StatusIs(Completed));
    }
  }

  /** Every task is in exactly the column of its status. */
  lemma ColumnMembership(s: seq<TaskItem>, t: TaskItem, st: TaskStatus)
    ensures t in Column(s, st) <==> t in s && t.status == st
  {
    FilterMembership(s, StatusIs(st), t);
  }

  /** A column of a sorted list is sorted. */
  lemma {:induction false} ColumnSorted(s: seq<TaskItem>, st: TaskStatus)
    requires SortedByDate(s)
    ensures SortedByDate(Column(s, st))
    decreases |s|
  {
    if |s| > 0 {
      var init, x := s[..|s| - 1], s[|s| - 1];
      assert SortedByDate(init);
      ColumnSorted(init, st);
      assert s == init + [x];
      FilterSnoc(init, x, StatusIs(st));
      var c := Column(init, st);
      forall i | 0 <= i < |c|
        ensures LexLessEq(c[i].date, x.date)
      {
        assert c[i] in c;
        FilterMembership(init, StatusIs(st), c[i]);
        var k :| 0 <= k < |init| && init[k] == c[i];
        assert s[k] == c[i];
      }
    }
  }

  // ---------------------------------------------------------------------
  // Selection

  /** `selectedIds`, as a set: the order of the entries is not modelled. */
  function SelectedIds(selected: map<string, bool>): set<string> {
    set id | id in selected && selected[id]
  }

  function TaskIds(tasks: seq<TaskItem>): set<string> {
    set i | 0 <= i < |tasks| :: tasks[i].id
  }

  predicate UniqueIds(tasks: seq<TaskItem>) {
    forall i, j :: 0 <= i < j < |tasks| ==> tasks[i].id != tasks[j].id
  }

  /** The selection after the pruning effect: only ids that are on and
      belong to a present task, and none at all when there are no tasks. */
  function Pruned(prev: map<string, bool>, tasks: seq<TaskItem>): map<string, bool> {
    if |tasks| == 0 then map[] else map id | id in prev && prev[id] && id in TaskIds(tasks) :: true
  }

  lemma PrunedSelection(prev: map<string, bool>, tasks: seq<TaskItem>)
    ensures SelectedIds(Pruned(prev, tasks)) == SelectedIds(prev) * TaskIds(tasks)
    ensures Pruned(prev, tasks).Keys == SelectedIds(Pruned(prev, tasks))
  {
  }

  /** `allSelected`. */
  predicate AllSelected(selected: map<string, bool>, tasks: seq<TaskItem>) {
    |tasks| > 0 && |SelectedIds(selected)| == |tasks|
  }

  lemma {:induction false} UniqueIdsCount(tasks: seq<TaskItem>)
    requires UniqueIds(tasks)
    ensures |TaskIds(tasks)| == |tasks|
    decreases |tasks|
  {
    if |tasks| > 0 {
      var init := tasks[..|tasks| - 1];
      UniqueIdsCount(init);
      assert TaskIds(tasks) == TaskIds(init) + {tasks[|tasks| - 1].id};
      assert tasks[|tasks| - 1].id !in TaskIds(init);
    }
  }

  lemma {:induction false} SubsetSameSize(a: set<string>, b: set<string>)
    requires a <= b && |a| == |b|
    ensures a == b
  {
    if a != b {
      var x :| x in b && x !in a;
      assert a <= b - {x};
      SubsetSize(a, b - {x});
      assert false;
    }
  }

  lemma {:induction false} SubsetSize(a: set<string>, b: set<string>)
    requires a <= b
    ensures |a| <= |b|
  {
    assert b == a + (b - a);
  }

  /** With unique task ids and a pruned selection, the count test means every
      task is selected. */
  lemma AllSelectedMeansEveryTask(selected: map<string, bool>, tasks: seq<TaskItem>)
    requires UniqueIds(tasks) && SelectedIds(selected) <= TaskIds(tasks)
    ensures AllSelected(selected, tasks) <==> |tasks| > 0 && TaskIds(tasks) <= SelectedIds(selected)
  {
    UniqueIdsCount(tasks);
    if TaskIds(tasks) <= SelectedIds(selected) {
      assert SelectedIds(selected) == TaskIds(tasks);
    }
    if AllSelected(selected, tasks) {
      SubsetSameSize(SelectedIds(selected), TaskIds(tasks));
    }
  }

  /** The selection of the select-all button: every task id. */
  function SelectAll(tasks: seq<TaskItem>): (r: map<string, bool>)
    ensures SelectedIds(r) == TaskIds(tasks) && r.Keys == TaskIds(tasks)
  {
    map id | id in TaskIds(tasks) :: true
  }

  // ---------------------------------------------------------------------
  // Task list updates

  /** The first task with this id (`tasks.find`). */
  function Find(tasks: seq<TaskItem>, id: string): (r: Option<TaskItem>)
    ensures r.None? <==> id !in TaskIds(tasks)
    ensures r.Some? ==> r.value in tasks && r.value.id == id
    ensures r.Some? ==> exists k :: 0 <= k < |tasks| && r.value == tasks[k] && forall j :: 0 <= j < k ==> tasks[j].id != id
  {
    if |tasks| == 0 then None
    else if tasks[0].id == id then Some(tasks[0])
    else
      assert TaskIds(tasks) == {tasks[0].id} + TaskIds(tasks[1..]);
      var r := Find(tasks[1..], id);
      if r.Some? then
        var k :| 0 <= k < |tasks[1..]| && r.value == tasks[1..][k] && forall j :: 0 <= j < k ==> tasks[1..][j].id != id;
        assert r.value == tasks[k + 1];
        assert forall j :: 0 <= j < k + 1 ==> tasks[j].id != id by {
          forall j | 0 <= j < k + 1
            ensures tasks[j].id != id
          {
            if j > 0 {
              assert tasks[j] == tasks[1..][j - 1];
            }
          }
        }
        r
      else r
  }

  /** The optimistic status change: only tasks with the id change, and only
      their status. */
  function SetStatus(tasks: seq<TaskItem>, id: string, next: TaskStatus): (r: seq<TaskItem>)
    ensures |r| == |tasks|
    ensures forall i :: 0 <= i < |tasks| ==>
      r[i] == if tasks[i].id == id then tasks[i].(status := next) else tasks[i]
  {
    seq(|tasks|, i requires 0 <= i < |tasks| => if tasks[i].id == id then tasks[i].(status := next) else tasks[i])
  }

  /** The optimistic edit: the task with the id gets the trimmed title, the
      chosen category, the due date when one was entered (else its own) and
      the description as typed. */
  function ApplyEdit(tasks: seq<TaskItem>, id: string, title: string, kind: string, dueDate: string, detail: string): (r: seq<TaskItem>)
    ensures |r| == |tasks|
    ensures forall i :: 0 <= i < |tasks| && tasks[i].id != id ==> r[i] == tasks[i]
    ensures forall i :: 0 <= i < |tasks| && tasks[i].id == id ==>
      r[i] == tasks[i].(title := title, kind := kind, date := if dueDate == "" then tasks[i].date else dueDate, detail := detail)
  {
    seq(|tasks|, i requires 0 <= i < |tasks| =>
      if tasks[i].id == id
      then tasks[i].(title := title, kind := kind, date := if dueDate == "" then tasks[i].date else dueDate, detail := detail)
      else tasks[i])
  }

  /** The list after a bulk delete. */
  function RemoveIds(tasks: seq<TaskItem>, ids: set<string>): seq<TaskItem> {
    Filter(tasks, (t: TaskItem) => t.id !in ids)
  }

  lemma RemoveIdsSpec(tasks: seq<TaskItem>, ids: set<string>, t: TaskItem)
    ensures t in RemoveIds(tasks, ids) <==> t in tasks && t.id !in ids
    ensures TaskIds(RemoveIds(tasks, ids)) == TaskIds(tasks) - ids
  {
    FilterMembership(tasks, (t: TaskItem) => t.id !in ids, t);
    var r := RemoveIds(tasks, ids);
    forall id | id in TaskIds(tasks) - ids
      ensures id in TaskIds(r)
    {
      var i :| 0 <= i < |tasks| && tasks[i].id == id;
      FilterMembership(tasks, (t: TaskItem) => t.id !in ids, tasks[i]);
      var j :| 0 <= j < |r| && r[j] == tasks[i];
    }
    forall id | id in TaskIds(r)
      ensures id in TaskIds(tasks) - ids
    {
      var j :| 0 <= j < |r| && r[j].id == id;
      FilterMembership(tasks, (t: TaskItem) => t.id !in ids, r[j]);
    }
  }

  // ---------------------------------------------------------------------
  // Writes

  /** The category the edit dialog starts from: a lecture is edited as an
      assignment. */
  function EditKind(kind: string): (r: string)
    ensures r != "lecture"
    ensures kind != "lecture" ==> r == kind
  {
    if kind == "lecture" then "assignment" else kind
  }

  /** What a status change sends: `{ status, completed_at }`, or only
      `{ completed_at }` on the retry without the status column. */
  datatype StatusWrite = StatusWrite(status: Option<TaskStatus>, completedAt: Option<string>)

  const MissingColumnNotice: string := "Status column missing in DB \U{2014} apply migration 003 to persist status."

  /** How a status change ends. */
  datatype WriteOutcome = Persisted | ColumnMissing | WriteFailed(message: string)

  /** The retry without the status column runs exactly when the first write
      failed for want of that column. */
  predicate RetriesWithoutStatus(first: DbResult) {
    first.DbError? && IsMissingStatusColumnError(first.err)
  }

  /** The outcome of `updateStatus` from the results of its one or two
      writes. */
  function StatusWriteOutcome(first: DbResult, fallback: DbResult): WriteOutcome {
    if RetriesWithoutStatus(first) then
      if fallback.DbError? then WriteFailed(OrElse(ToErrorMessage(fallback.err), "Update failed."))
      else ColumnMissing
    else if first.DbError? then WriteFailed(OrElse(ToErrorMessage(first.err), "Update failed."))
    else Persisted
  }

  /** The change is kept unless a write failed; the retry's result matters
      only after a missing-column failure; a failure always has a message. */
  lemma StatusWriteOutcomeSpec(first: DbResult, fallback: DbResult, fallback2: DbResult)
    ensures StatusWriteOutcome(first, fallback) == Persisted <==> first == DbOk
    ensures StatusWriteOutcome(first, fallback) == ColumnMissing <==> RetriesWithoutStatus(first) && fallback == DbOk
    ensures StatusWriteOutcome(first, fallback).WriteFailed? ==> StatusWriteOutcome(first, fallback).message != ""
    ensures !RetriesWithoutStatus(first) ==> StatusWriteOutcome(first, fallback) == StatusWriteOutcome(first, fallback2)
  {
  }

  /** The writes a status change issues, in order. */
  function StatusWrites(next: TaskStatus, nowIso: string, first: DbResult): (r: seq<StatusWrite>)
    ensures 1 <= |r| <= 2 && r[0].status == Some(next)
    ensures |r| == 2 <==> RetriesWithoutStatus(first)
    ensures forall i :: 0 <= i < |r| ==> (r[i].completedAt.Some? <==> next == Completed)
  {
    var completedAt := if next == Completed then Some(nowIso) else None;
    [StatusWrite(Some(next), completedAt)] + if RetriesWithoutStatus(first) then [StatusWrite(None, completedAt)] else []
  }

  /** A status change keeps every id and every other field, and puts the
      changed task in the column of its new status. */
  lemma SetStatusMoves(tasks: seq<TaskItem>, id: string, next: TaskStatus)
    ensures TaskIds(SetStatus(tasks, id, next)) == TaskIds(tasks)
    ensures forall t :: t in Column(SetStatus(tasks, id, next), next) <==>
      (exists i :: 0 <= i < |tasks| && (t == if tasks[i].id == id then tasks[i].(status := next) else tasks[i]) && t.status == next)
  {
    var r := SetStatus(tasks, id, next);
    assert forall i :: 0 <= i < |r| ==> r[i].id == tasks[i].id;
    forall t ensures t in Column(r, next) <==> t in r && t.status == next {
      ColumnMembership(r, t, next);
    }
  }

  /** The number of tasks of one category (`counts`). */
  function KindCount(tasks: seq<TaskItem>, kind: string): (r: nat)
    ensures r <= |tasks|
  {
    |Filter(tasks, KindIs(kind))|
  }

  function KindIs(kind: string): TaskItem -> bool {
    (t: TaskItem) => t.kind == kind
  }

  /** The quiz, assignment and exam counts never add up to more than the
      number of tasks. */
  lemma {:induction false} KindCountsBound(tasks: seq<TaskItem>)
    ensures KindCount(tasks, "quiz") + KindCount(tasks, "assignment") + KindCount(tasks, "exam") <= |tasks|
    decreases |tasks|
  {
    if |tasks| > 0 {
      var init, x := tasks[..|tasks| - 1], tasks[|tasks| - 1];
      KindCountsBound(init);
      assert tasks == init + [x];
      FilterSnoc(init, x, KindIs("quiz"));
      FilterSnoc(init, x, KindIs("assignment"));
      FilterSnoc(init, x, KindIs("exam"));
    }
  }

  // ---------------------------------------------------------------------
  // Calendar sync input

  /** One event of the sync list: a lecture is sent as an assignment. */
  function ToSyncEvent(t: TaskItem): (e: ParsedEvent)
    ensures e.kind != "lecture"
  {
    ParsedEvent(t.title, if t.kind == "lecture" then "assignment" else t.kind, t.date, t.detail)
  }

  /** The events `onSyncAll` hands to the batch: every task not completed, in
      order. */
  function SyncEvents(tasks: seq<TaskItem>): (r: seq<ParsedEvent>)
    ensures |r| <= |tasks|
    ensures forall i :: 0 <= i < |r| ==> r[i].kind != "lecture"
    decreases |tasks|
  {
    if |tasks| == 0 then []
    else (if tasks[0].status != Completed then [ToSyncEvent(tasks[0])] else []) + SyncEvents(tasks[1..])
  }

  /** The task is not completed. */
  function IsOpen(): TaskItem -> bool {
    (t: TaskItem) => t.status != Completed
  }

  /** The sync event of each task, in order. */
  function SyncEventsOf(tasks: seq<TaskItem>): (r: seq<ParsedEvent>)
    ensures |r| == |tasks| && forall i :: 0 <= i < |tasks| ==> r[i] == ToSyncEvent(tasks[i])
  {
    seq(|tasks|, i requires 0 <= i < |tasks| => ToSyncEvent(tasks[i]))
  }

  lemma SyncEventsOfConcat(a: seq<TaskItem>, b: seq<TaskItem>)
    ensures SyncEventsOf(a + b) == SyncEventsOf(a) + SyncEventsOf(b)
  {
  }

  /** An event is synced exactly when it comes from a task that is not
      completed; every such task gives one, in order. */
  lemma {:induction false} SyncEventsSpec(tasks: seq<TaskItem>)
    ensures SyncEvents(tasks) == SyncEventsOf(Filter(tasks, IsOpen()))
    decreases |tasks|
  {
    if |tasks| > 0 {
      var head, tail := [tasks[0]], tasks[1..];
      SyncEventsSpec(tail);
      assert tasks == head + tail;
      FilterConcat(head, tail, IsOpen());
      assert Filter(head, IsOpen()) == if IsOpen()(tasks[0]) then head else [] by {
        assert head[..0] == [];
      }
      SyncEventsOfConcat(Filter(head, IsOpen()), Filter(tail, IsOpen()));
    }
  }

  lemma SyncEventsExcludeCompleted(tasks: seq<TaskItem>, t: TaskItem)
    requires t in tasks && t.status != Completed
    ensures ToSyncEvent(t) in SyncEvents(tasks)
  {
    SyncEventsSpec(tasks);
    FilterMembership(tasks, IsOpen(), t);
    var f := Filter(tasks, IsOpen());
    var k :| 0 <= k < |f| && f[k] == t;
    assert SyncEvents(tasks)[k] == ToSyncEvent(t);
  }

  function SyncedMessage(n: nat): string {
    "Synced " + IntToString(n) + " events to Google Calendar."
  }

  /** The status after a sync run: how many events went out, or why not. */
  function SyncStatus(outcome: BatchOutcome, n: nat): string {
    match outcome
    case BatchOk(_) => SyncedMessage(n)
    case BatchFailed(message) => message
  }
}
