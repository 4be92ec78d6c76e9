/** The weekly schedule of the tasks page: seven day cells from today on,
    each saying how many tasks are due that day. The rows come from the
    database; today is a parameter. The locale-dependent weekday names are
    not modelled. */
module WeeklySchedule {
  import opened Common
  import opened Text
  import opened Dates
  import opened Week

  /** The columns the schedule selects from `assignments`. */
  datatype ScheduleRow = ScheduleRow(id: string, dueDate: Option<string>, title: string)

  function DueKey(r: ScheduleRow): Option<string> {
    r.dueDate
  }

  /** The line under a day: the number of tasks due, or "No events". */
  function DayLabel(n: nat): (r: string)
    ensures n == 0 ==> r == "No events"
    ensures n > 0 ==> |r| > 4 && r[|r| - 4..] == " due" && IntValue(r[..|r| - 4]) == Some(n)
  {
    if n > 0 then
      var digits := IntToString(n);
      var r := digits + " due";
      assert r[..|r| - 4] == digits;
      IntValueOfIntToString(n);
      r
    else "No events"
  }

  /** The schedule: the rows grouped by date, then one label per day from
      its bucket's size. */
  method Labels(rows: seq<ScheduleRow>, today: Date) returns (keys: seq<string>, labels: seq<string>)
    requires Valid(today)
    ensures |keys| == 7 && |labels| == 7
    ensures forall i :: 0 <= i < 7 ==>
      keys[i] == Format(WeekDays(today)[i]) && labels[i] == DayLabel(|Bucket(rows, DueKey, keys[i])|)
  {
    var byDate, order := ByDate(rows, DueKey);
    var days := WeekDays(today);
    keys := seq(7, i requires 0 <= i < 7 => Format(days[i]));
    labels := seq(7, i requires 0 <= i < 7 => DayLabel(|Lookup(byDate, keys[i])|));
  }
}
