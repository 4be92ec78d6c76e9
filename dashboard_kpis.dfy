/** The dashboard's three figures: tasks due today, the completion streak
    and the share of this week's tasks that are done. Today is a parameter;
    a completion timestamp enters as the local day key it falls on. */
module DashboardKpis {
  import opened Common
  import opened Text
  import opened Dates

  /** The columns the dashboard selects from `assignments`. */
  datatype KpiRow = KpiRow(id: string, kind: string, dueDate: Option<string>, completedAt: Option<string>)

  function DateSet(dates: seq<string>): set<string> {
    set x | x in dates
  }

  /** `k` is the streak for `today`: the `k` days ending today all have a
      completion and the day before them has none. */
  ghost predicate IsStreak(dates: set<string>, today: Date, k: nat)
    requires Valid(today)
  {
    && (forall j: nat :: j < k ==> Format(DaysBack(today, j)) in dates)
    && Format(DaysBack(today, k)) !in dates
  }

  /** Different numbers of days back give different day keys. */
  lemma DaysBackKeysDistinct(today: Date, j: nat, k: nat)
    requires Valid(today) && j < k
    ensures Format(DaysBack(today, j)) != Format(DaysBack(today, k))
  {
    DaysBackDecreasing(today, j, k);
    if Format(DaysBack(today, j)) == Format(DaysBack(today, k)) {
      FormatInjective(DaysBack(today, j), DaysBack(today, k));
    }
  }

  /** The values of `f` below `n`. */
  function Image<T>(f: nat -> T, n: nat): set<T> {
    if n == 0 then {} else Image(f, n - 1) + {f(n - 1)}
  }

  /** A value of `f` at `n` or beyond that differs from every earlier one is
      not among the values below `n`. */
  lemma {:induction false} ImageFresh<T>(f: nat -> T, n: nat, k: nat)
    requires n <= k && forall j: nat :: j < n ==> f(j) != f(k)
    ensures f(k) !in Image(f, n)
  {
    if n > 0 {
      ImageFresh(f, n - 1, k);
    }
  }

  /** Pairwise different values below `n` make `n` of them. */
  lemma {:induction false} ImageCard<T>(f: nat -> T, n: nat)
    requires forall i: nat, j: nat :: i < j < n ==> f(i) != f(j)
    ensures |Image(f, n)| == n
  {
    if n > 0 {
      var prev, x := Image(f, n - 1), f(n - 1);
      ImageCard(f, n - 1);
      ImageFresh(f, n - 1, n - 1);
      assert Image(f, n) == prev + {x} && x !in prev;
    }
  }

  /** The key of the day `j` days before `today`. */
  function BackKey(today: Date): nat -> string
    requires Valid(today)
  {
    (j: nat) => Format(DaysBack(today, j))
  }

  /** The `n` days ending today have `n` distinct keys. */
  lemma KeysBackCard(today: Date, n: nat)
    requires Valid(today)
    ensures |Image(BackKey(today), n)| == n
  {
    var f := BackKey(today);
    forall i: nat, j: nat | i < j < n
      ensures f(i) != f(j)
    {
      DaysBackKeysDistinct(today, i, j);
    }
    ImageCard(f, n);
  }

  /** The `n` days ending today all have a completion. */
  ghost predicate StreakSoFar(dates: set<string>, today: Date, n: nat)
    requires Valid(today)
  {
    Image(BackKey(today), n) <= dates
  }

  /** Each value below `n` is among the values below `n`. */
  lemma {:induction false} ImageHas<T>(f: nat -> T, n: nat, j: nat)
    requires j < n
    ensures f(j) in Image(f, n)
  {
    if j < n - 1 {
      ImageHas(f, n - 1, j);
    }
  }

  /** A run of `n` days: each of the `n` days ending today has a completion. */
  lemma StreakDays(dates: set<string>, today: Date, n: nat)
    requires Valid(today) && StreakSoFar(dates, today, n)
    ensures forall j: nat :: j < n ==> Format(DaysBack(today, j)) in dates
  {
    forall j: nat | j < n
      ensures Format(DaysBack(today, j)) in dates
    {
      ImageHas(BackKey(today), n, j);
    }
  }

  /** One more day with a completion extends the run. */
  lemma StreakExtends(dates: set<string>, today: Date, n: nat)
    requires Valid(today) && StreakSoFar(dates, today, n) && Format(DaysBack(today, n)) in dates
    ensures StreakSoFar(dates, today, n + 1)
  {
    assert BackKey(today)(n) == Format(DaysBack(today, n));
  }

  /** The run never has more days than there are dates. */
  lemma StreakBound(dates: set<string>, today: Date, n: nat)
    requires Valid(today) && StreakSoFar(dates, today, n)
    ensures n <= |dates|
  {
    KeysBackCard(today, n);
    SubsetCard(Image(BackKey(today), n), dates);
  }

  /** `computeStreak`: walks back from today while the day's key is among the
      completion dates. */
  method ComputeStreak(dates: seq<string>, today: Date) returns (streak: nat)
    requires Valid(today)
    ensures IsStreak(DateSet(dates), today, streak)
    ensures streak <= |DateSet(dates)|
    ensures streak == 0 <==> Format(today) !in DateSet(dates)
  {
    var dateSet := DateSet(dates);
    streak := 0;
    var cursor := today;
    while true
      invariant Valid(cursor) && cursor == DaysBack(today, streak)
      invariant StreakSoFar(dateSet, today, streak) && streak <= |dateSet|
      decreases |dateSet| - streak
    {
      var key := Format(cursor);
      if key in dateSet {
        StreakExtends(dateSet, today, streak);
        StreakBound(dateSet, today, streak + 1);
        streak := streak + 1;
        cursor := PrevDay(cursor);
      } else {
        StreakDays(dateSet, today, streak);
        break;
      }
    }
  }

  lemma SubsetCard(a: set<string>, b: set<string>)
    requires a <= b
    ensures |a| <= |b|
  {
    assert b == a + (b - a);
  }

  /** The streak is determined by the set of dates: repeated completion days
      and their order make no difference. */
  lemma StreakUnique(dates: set<string>, today: Date, k1: nat, k2: nat)
    requires Valid(today) && IsStreak(dates, today, k1) && IsStreak(dates, today, k2)
    ensures k1 == k2
  {
  }

  /** `dueToday`: rows due today that are not completed. */
  predicate IsDueToday(r: KpiRow, todayKey: string) {
    r.dueDate == Some(todayKey) && !Truthy(r.completedAt)
  }

  function DueTodayOf(todayKey: string): KpiRow -> bool {
    (r: KpiRow) => IsDueToday(r, todayKey)
  }

  function DueToday(rows: seq<KpiRow>, todayKey: string): (n: nat)
    ensures n <= |rows|
  {
    |Filter(rows, DueTodayOf(todayKey))|
  }

  /** The count adds up over any split of the rows; a single row counts
      exactly when it is due today and not completed. */
  lemma DueTodayCounts(a: seq<KpiRow>, b: seq<KpiRow>, todayKey: string, r: KpiRow)
    ensures DueToday(a + b, todayKey) == DueToday(a, todayKey) + DueToday(b, todayKey)
    ensures DueToday([r], todayKey) == if IsDueToday(r, todayKey) then 1 else 0
  {
    FilterConcat(a, b, DueTodayOf(todayKey));
    FilterSnoc([], r, DueTodayOf(todayKey));
    assert [] + [r] == [r];
  }

  /** The window of `weeklyProgress`: the day keys from six days back to
      today, compared as strings. */
  predicate InWindow(key: string, today: Date)
    requires Valid(today)
  {
    LexLessEq(Format(DaysBack(today, 6)), key) && LexLessEq(key, Format(today))
  }

  /** For day keys with four-digit years the string window is the seven
      calendar days ending today. */
  lemma WindowIsSevenDays(d: Date, today: Date)
    requires Valid(d) && Valid(today)
    requires 1000 <= DaysBack(today, 6).year && today.year <= 9999 && 1000 <= d.year <= 9999
    ensures InWindow(Format(d), today) <==> BeforeOrSame(DaysBack(today, 6), d) && BeforeOrSame(d, today)
  {
    DaysBackDecreasing(today, 0, 6);
    FormatOrderOrSame(DaysBack(today, 6), d);
    FormatOrderOrSame(d, today);
  }

  /** Each of the seven days ending today is in the window. */
  lemma WindowHoldsWeek(today: Date, j: nat)
    requires Valid(today) && j <= 6
    requires 1000 <= DaysBack(today, 6).year && today.year <= 9999
    ensures InWindow(Format(DaysBack(today, j)), today)
  {
    var d := DaysBack(today, j);
    if j < 6 {
      DaysBackDecreasing(today, j, 6);
    }
    if j > 0 {
      DaysBackDecreasing(today, 0, j);
    }
    WindowIsSevenDays(d, today);
  }

  datatype WeeklyProgress = WeeklyProgress(total: nat, done: nat)

  function DueInWindow(today: Date): KpiRow -> bool
    requires Valid(today)
  {
    (r: KpiRow) => Truthy(r.dueDate) && InWindow(r.dueDate.value, today)
  }

  function DoneInWindow(today: Date, localKey: string -> string): KpiRow -> bool
    requires Valid(today)
  {
    (r: KpiRow) => Truthy(r.completedAt) && InWindow(localKey(r.completedAt.value), today)
  }

  /** `weeklyProgress`'s counts: rows due in the window, and rows completed
      on a day of the window. */
  function Weekly(rows: seq<KpiRow>, today: Date, localKey: string -> string): (p: WeeklyProgress)
    requires Valid(today)
    ensures p.total <= |rows| && p.done <= |rows|
  {
    WeeklyProgress(|Filter(rows, DueInWindow(today))|, |Filter(rows, DoneInWindow(today, localKey))|)
  }

  /** The share shown in the ring: 0 with nothing due, else done over due,
      capped at 1. */
  function Ratio(p: WeeklyProgress): (r: real)
    ensures 0.0 <= r <= 1.0
    ensures p.total == 0 ==> r == 0.0
    ensures p.total > 0 && p.done <= p.total ==> r * (p.total as real) == p.done as real
  {
    if p.total == 0 then 0.0
    else if (p.done as real) / (p.total as real) < 1.0 then (p.done as real) / (p.total as real)
    else 1.0
  }
}
