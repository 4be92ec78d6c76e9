/** The greeting at the top of the dashboard: a time-of-day greeting, the
    user's first name, and a line about the tasks due today. The hour, the
    user's metadata and the count come in as parameters. */
module DashboardGreeting {
  import opened Common
  import opened Text

  /** `getGreeting` for the hour of the day. */
  function Greeting(hour: int): (r: string)
    ensures hour < 12 ==> r == "Good morning"
    ensures 12 <= hour < 17 ==> r == "Good afternoon"
    ensures hour >= 17 ==> r == "Good evening"
  {
    if hour < 12 then "Good morning"
    else if hour < 17 then "Good afternoon"
    else "Good evening"
  }

  /** `s.split(" ")[0]`: the text before the first space, or all of it. */
  function BeforeSpace(s: string): (r: string)
    ensures ' ' !in r && r <= s
    ensures ' ' !in s ==> r == s
    ensures ' ' in s ==> |r| < |s| && s[|r|] == ' '
  {
    if ' ' in s then s[..IndexOf(s, ' ')] else s
  }

  /** The string-typed `full_name` and `name` of the user metadata (absent
      when missing or not a string). */
  datatype Meta = Meta(fullName: Option<string>, name: Option<string>)

  /** `full_name ?? name`: `name` is used only when `full_name` is absent,
      not when it is empty. */
  function NameSource(meta: Meta): (r: Option<string>)
    ensures meta.fullName.Some? ==> r == meta.fullName
    ensures meta.fullName.None? ==> r == meta.name
  {
    if meta.fullName.Some? then meta.fullName else meta.name
  }

  /** The first name after a load: taken from the name when there is a user
      and the name is not empty, otherwise the previous value stays. */
  function FirstNameAfterLoad(prev: Option<string>, user: Option<Meta>): (r: Option<string>)
    ensures user.Some? && Truthy(NameSource(user.value)) ==> r == Some(BeforeSpace(NameSource(user.value).value))
    ensures !(user.Some? && Truthy(NameSource(user.value))) ==> r == prev
  {
    if user.Some? && Truthy(NameSource(user.value)) then Some(BeforeSpace(NameSource(user.value).value)) else prev
  }

  /** The `, Name` after the greeting, when the first name is not empty. */
  function NameSuffix(firstName: Option<string>): (r: string)
    ensures Truthy(firstName) ==> r == ", " + firstName.value
    ensures !Truthy(firstName) ==> r == ""
  {
    if Truthy(firstName) then ", " + firstName.value else ""
  }

  /** After a load from a user with a name, the suffix shows the first word
      of the name, and it is empty exactly when the name starts with a
      space. */
  lemma SuffixAfterLoad(prev: Option<string>, meta: Meta)
    requires Truthy(NameSource(meta))
    ensures var n := NameSource(meta).value;
      var s := NameSuffix(FirstNameAfterLoad(prev, Some(meta)));
      && (s == "" <==> n[0] == ' ')
      && (n[0] != ' ' ==> s == ", " + BeforeSpace(n) && ' ' !in BeforeSpace(n) && BeforeSpace(n) <= n)
  {
    var n := NameSource(meta).value;
    if n[0] == ' ' {
      assert IndexOf(n, ' ') == 0;
    } else {
      assert BeforeSpace(n) != "";
      assert (", " + BeforeSpace(n))[0] == ',';
    }
  }

  const LoadingLine: string := "Loading your schedule\U{2026}"
  const AllClearLine: string := "No tasks due today, you're all clear."
  const OneTaskLine: string := "You have 1 task due today."

  function ManyTasksLine(n: int): string {
    "You have " + IntToString(n) + " tasks due today."
  }

  /** The line under the greeting, from the count (`None` while loading). */
  function Subtitle(dueToday: Option<int>): (r: string)
    ensures dueToday.None? ==> r == LoadingLine
    ensures dueToday == Some(0) ==> r == AllClearLine
    ensures dueToday == Some(1) ==> r == OneTaskLine
    ensures dueToday.Some? && dueToday.value != 0 && dueToday.value != 1 ==> r == ManyTasksLine(dueToday.value)
  {
    match dueToday
    case None => LoadingLine
    case Some(n) =>
      if n == 0 then AllClearLine
      else if n == 1 then OneTaskLine
      else ManyTasksLine(n)
  }

  /** The many-tasks line reads back as its count. */
  lemma ManyTasksLineCount(n: int)
    ensures var s := ManyTasksLine(n);
      |s| >= 27 && s[..9] == "You have " && s[|s| - 17..] == " tasks due today." && IntValue(s[9..|s| - 17]) == Some(n)
  {
    var s := ManyTasksLine(n);
    assert s[9..|s| - 17] == IntToString(n);
    IntValueOfIntToString(n);
  }

  /** Different counts give different lines. */
  lemma SubtitleInjective(a: Option<int>, b: Option<int>)
    requires Subtitle(a) == Subtitle(b)
    ensures a == b
  {
    SubtitleBand(a);
    SubtitleBand(b);
    if a.Some? && b.Some? && a.value !in {0, 1} && b.value !in {0, 1} {
      ManyTasksLineCount(a.value);
      ManyTasksLineCount(b.value);
    }
  }

  /** The four kinds of line are told apart by their length and one
      character. */
  lemma SubtitleBand(x: Option<int>)
    ensures var s := Subtitle(x);
      && (x.None? ==> |s| == 22)
      && (x == Some(0) ==> |s| == 37)
      && (x == Some(1) ==> |s| == 26)
      && (x == Some(0) ==> s[0] == 'N')
      && (x.Some? && x.value !in {0, 1} ==> |s| >= 27 && s[..9] == "You have " && s[|s| - 17..] == " tasks due today.")
  {
    if x.Some? && x.value !in {0, 1} {
      ManyTasksLineCount(x.value);
    }
  }

  /** `dueToday` after a load: the count (0 when absent) unless the query
      failed, in which case the previous value stays. */
  function DueTodayAfterLoad(prev: Option<int>, count: Option<nat>, failed: bool): (r: Option<int>)
    ensures failed ==> r == prev
    ensures !failed ==> r.Some? && r.value >= 0 && (count.Some? ==> r.value == count.value)
  {
    if failed then prev else Some(count.GetOr(0))
  }
}
