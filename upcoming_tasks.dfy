/** The "Upcoming" card of the dashboard: the next open tasks, each with a
    badge letter for its kind and a label saying how soon it is due. The
    whole-day difference between the due date and today is a parameter
    (`None` when the date does not parse). */
module UpcomingTasks {
  import opened Common
  import opened Text

  /** The colour class of a label, by band. */
  datatype Tone = OverdueTone | SoonTone | WeekTone | LaterTone | NoDateTone

  datatype Label = Label(text: string, tone: Tone)

  /** `formatRelativeDate` of the card. An unparsable date makes every
      comparison false, so it falls through to the date itself. */
  function RelativeLabel(dateStr: string, diffDays: Option<int>): (r: Label)
    ensures r.tone == OverdueTone <==> diffDays.Some? && diffDays.value < 0
    ensures r.tone == SoonTone <==> diffDays.Some? && 0 <= diffDays.value <= 1
    ensures r.tone == WeekTone <==> diffDays.Some? && 2 <= diffDays.value <= 7
    ensures r.tone == LaterTone <==> diffDays.None? || diffDays.value > 7
    ensures r.tone == LaterTone ==> r.text == dateStr
  {
    match diffDays
    case None => Label(dateStr, LaterTone)
    case Some(d) =>
      if d < 0 then Label("Overdue by " + IntToString(-d) + "d", OverdueTone)
      else if d == 0 then Label("Due today", SoonTone)
      else if d == 1 then Label("Due tomorrow", SoonTone)
      else if d <= 7 then Label("Due in " + IntToString(d) + "d", WeekTone)
      else Label(dateStr, LaterTone)
  }

  /** The labels of the counted bands name the number of days: the text
      between the fixed prefix and the final `d` reads back as the distance
      in days. */
  lemma RelativeLabelDays(dateStr: string, d: int)
    ensures d < 0 ==>
      var t := RelativeLabel(dateStr, Some(d)).text;
      |t| > 12 && t[..11] == "Overdue by " && t[|t| - 1] == 'd' && IntValue(t[11..|t| - 1]) == Some(-d)
    ensures 2 <= d <= 7 ==>
      var t := RelativeLabel(dateStr, Some(d)).text;
      |t| > 8 && t[..7] == "Due in " && t[|t| - 1] == 'd' && IntValue(t[7..|t| - 1]) == Some(d)
    ensures d == 0 ==> RelativeLabel(dateStr, Some(d)).text == "Due today"
    ensures d == 1 ==> RelativeLabel(dateStr, Some(d)).text == "Due tomorrow"
  {
    if d < 0 {
      var t := RelativeLabel(dateStr, Some(d)).text;
      assert t[11..|t| - 1] == IntToString(-d);
      IntValueOfIntToString(-d);
    }
    if 2 <= d <= 7 {
      var t := RelativeLabel(dateStr, Some(d)).text;
      assert t[7..|t| - 1] == IntToString(d);
      IntValueOfIntToString(d);
    }
  }

  /** A task's label: "No date" when it has no due date, else the relative
      label of its date. */
  function TaskLabel(dueDate: Option<string>, diffDays: Option<int>): (r: Label)
    ensures !Truthy(dueDate) ==> r == Label("No date", NoDateTone)
    ensures Truthy(dueDate) ==> r == RelativeLabel(dueDate.value, diffDays) && r.tone != NoDateTone
  {
    if Truthy(dueDate) then RelativeLabel(dueDate.value, diffDays) else Label("No date", NoDateTone)
  }

  /** The badge letter: the kind's initial for the three known kinds, `?`
      for any other. */
  function BadgeLetter(kind: string): (r: string)
    ensures kind == "quiz" ==> r == "Q"
    ensures kind == "assignment" ==> r == "A"
    ensures kind == "exam" ==> r == "E"
    ensures r == "?" <==> kind !in {"quiz", "assignment", "exam"}
  {
    if kind == "quiz" then "Q"
    else if kind == "assignment" then "A"
    else if kind == "exam" then "E"
    else "?"
  }
}
