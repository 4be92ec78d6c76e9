/** The "Your Week" card of the dashboard: seven day cells from today on,
    each listing at most three of the tasks due that day, struck through
    when done, and "+N more" for the rest. The rows come from the
    database; today is a parameter. The locale-dependent weekday and month
    names are not modelled. */
module CalendarCard {
  import opened Common
  import opened Text
  import opened Dates
  import opened Week

  /** The columns the card selects from `assignments`. */
  datatype CardRow = CardRow(id: string, title: string, kind: string, dueDate: Option<string>, completedAt: Option<string>)

  function DueKey(r: CardRow): Option<string> {
    r.dueDate
  }

  /** One entry of `days`. */
  datatype DayCell = DayCell(key: string, dayNum: int, isToday: bool)

  /** `days`: the seven days from today, keyed by their day keys, with
      only the first marked as today. */
  function Days(today: Date): (r: seq<DayCell>)
    requires Valid(today)
    ensures |r| == 7
    ensures forall i :: 0 <= i < 7 ==>
      r[i].key == Format(WeekDays(today)[i]) && r[i].dayNum == WeekDays(today)[i].day && (r[i].isToday <==> i == 0)
  {
    var dates := WeekDays(today);
    seq(7, i requires 0 <= i < 7 => DayCell(Format(dates[i]), dates[i].day, i == 0))
  }

  /** The cells are today and the six days after it, each under its own
      key. */
  lemma DaysAreTheWeek(today: Date)
    requires Valid(today)
    ensures var r := Days(today);
      && r[0].key == Format(today) && r[0].isToday
      && (forall i, j :: 0 <= i < j < 7 ==> r[i].key != r[j].key)
      && (forall i :: 0 <= i < 6 ==> r[i + 1].key == Format(NextDay(WeekDays(today)[i])))
  {
    WeekDaysConsecutive(today);
  }

  /** `items.slice(0, 3)`. */
  function Shown<T>(items: seq<T>): (r: seq<T>)
    ensures |r| == if |items| <= 3 then |items| else 3
    ensures r == items[..|r|]
  {
    if |items| <= 3 then items else items[..3]
  }

  /** The "+N more" line: present exactly when more than three tasks are
      due, naming how many are not shown. */
  function MoreLabel(n: nat): (r: Option<string>)
    ensures r.Some? <==> n > 3
    ensures r.Some? ==> r.value == "+" + IntToString(n - 3) + " more"
  {
    if n > 3 then Some("+" + IntToString(n - 3) + " more") else None
  }

  /** One task line: its title, struck through when `completed_at` is
      truthy. */
  datatype ItemView = ItemView(title: string, done: bool)

  /** What a day cell shows: "No tasks" when nothing is due, the first three
      tasks and the overflow line. */
  datatype DayView = DayView(key: string, isToday: bool, noTasks: bool, items: seq<ItemView>, more: Option<string>)

  function ItemViews(rows: seq<CardRow>): (r: seq<ItemView>)
    ensures |r| == |rows|
    ensures forall i :: 0 <= i < |rows| ==> r[i].title == rows[i].title && (r[i].done <==> Truthy(rows[i].completedAt))
  {
    seq(|rows|, i requires 0 <= i < |rows| => ItemView(rows[i].title, Truthy(rows[i].completedAt)))
  }

  /** The view of one day from its bucket. */
  function DayViewOf(cell: DayCell, bucket: seq<CardRow>): (v: DayView)
    ensures v.key == cell.key && v.isToday == cell.isToday
    ensures v.noTasks <==> |bucket| == 0
    ensures |v.items| == (if |bucket| <= 3 then |bucket| else 3) && v.items == ItemViews(bucket[..|v.items|])
    ensures v.more.Some? <==> |bucket| > 3
  {
    DayView(cell.key, cell.isToday, |bucket| == 0, ItemViews(Shown(bucket)), MoreLabel(|bucket|))
  }

  /** Every task due that day is either listed or counted in "+N more". */
  lemma DayViewAccounts(cell: DayCell, bucket: seq<CardRow>)
    ensures var v := DayViewOf(cell, bucket);
      && (|bucket| <= 3 ==> |v.items| == |bucket| && v.more.None?)
      && (|bucket| > 3 ==> |v.items| == 3 && v.more == Some("+" + IntToString(|bucket| - |v.items|) + " more"))
  {
  }

  /** The card: the rows grouped by date, then one view per day, each from
      the rows due that day in the order they arrived. */
  method Render(rows: seq<CardRow>, today: Date) returns (views: seq<DayView>)
    requires Valid(today)
    ensures |views| == 7
    ensures forall i :: 0 <= i < 7 ==> views[i] == DayViewOf(Days(today)[i], Bucket(rows, DueKey, Days(today)[i].key))
  {
    var byDate, keys := ByDate(rows, DueKey);
    var days := Days(today);
    views := seq(7, i requires 0 <= i < 7 => DayViewOf(days[i], Lookup(byDate, days[i].key)));
  }
}
